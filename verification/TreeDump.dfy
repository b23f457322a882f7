// Dumping and loading trees (3rd/ANN/kd_dump.cpp) at the level of tokens: words, integers and
// exact coordinates.
module TreeDump {
  import opened BoundLists
  import opened SpatialTrees

  datatype Token = Word(w: string) | Int(i: int) | Real(r: real)

  function Ints(s: seq<int>): seq<Token> {
    seq(|s|, i requires 0 <= i < |s| => Int(s[i]))
  }

  function Reals(s: seq<real>): seq<Token> {
    seq(|s|, i requires 0 <= i < |s| => Real(s[i]))
  }

  function BoundTriple(h: HalfSpace): seq<Token> {
    [Int(h.cd), Real(h.cv), Int(h.sd)]
  }

  function BoundTokens(bnds: seq<HalfSpace>): seq<Token> {
    if |bnds| == 0 then [] else BoundTriple(bnds[0]) + BoundTokens(bnds[1..])
  }

  // The nodes in preorder.
  function Dumped(t: Node): seq<Token> {
    match t
    case Leaf(bkt) => [Word("leaf"), Int(|bkt|)] + Ints(bkt)
    case Split(cd, cv, lo, hi, low, high) =>
      [Word("split"), Int(cd), Real(cv), Real(lo), Real(hi)] + (Dumped(low) + Dumped(high))
    case Shrink(bnds, inner, outer) =>
      [Word("shrink"), Int(|bnds|)] + (BoundTokens(bnds) + (Dumped(inner) + Dumped(outer)))
  }

  // ------------------------------------------------------------------
  // Writing

  class Writer {
    var text: seq<Token>

    constructor ()
      ensures text == []
    {
      text := [];
    }

    method Put(x: Token)
      modifies this
      ensures text == old(text) + [x]
    {
      text := text + [x];
    }
  }

  lemma {:induction false} Assoc(a: seq<Token>, b: seq<Token>, c: seq<Token>)
    ensures (a + b) + c == a + (b + c)
  {
  }

  method PutBounds(out: Writer, bnds: seq<HalfSpace>)
    modifies out
    ensures out.text == old(out.text) + BoundTokens(bnds)
  {
    ghost var start := out.text;
    assert bnds[..0] == [];
    for j := 0 to |bnds|
      invariant out.text == start + BoundTokens(bnds[..j])
    {
      out.Put(Int(bnds[j].cd));
      out.Put(Real(bnds[j].cv));
      out.Put(Int(bnds[j].sd));
      BoundsMore(bnds, j);
    }
    assert bnds[..|bnds|] == bnds;
  }

  lemma {:induction false} BoundsFirst(h: HalfSpace, rest: seq<HalfSpace>)
    ensures BoundTokens([h] + rest) == BoundTriple(h) + BoundTokens(rest)
  {
    assert ([h] + rest)[1..] == rest;
  }

  lemma {:induction false} BoundsConcat(a: seq<HalfSpace>, b: seq<HalfSpace>)
    ensures BoundTokens(a + b) == BoundTokens(a) + BoundTokens(b)
  {
    if a == [] {
      assert a + b == b;
    } else {
      var h, c := a[0], a[1..];
      assert a == [h] + c && a + b == [h] + (c + b);
      BoundsConcat(c, b);
      BoundsFirst(h, c + b);
      BoundsFirst(h, c);
      hide BoundTokens, BoundTriple;
      Assoc(BoundTriple(h), BoundTokens(c), BoundTokens(b));
    }
  }

  lemma {:induction false} BoundsMore(bnds: seq<HalfSpace>, j: nat)
    requires j < |bnds|
    ensures BoundTokens(bnds[..j + 1]) ==
            BoundTokens(bnds[..j]) + BoundTriple(bnds[j])
  {
    assert bnds[..j + 1] == bnds[..j] + [bnds[j]];
    BoundsConcat(bnds[..j], [bnds[j]]);
    OneBound(bnds[j]);
  }

  method PutInts(out: Writer, s: seq<int>)
    modifies out
    ensures out.text == old(out.text) + Ints(s)
  {
    ghost var start := out.text;
    for j := 0 to |s|
      invariant out.text == start + Ints(s[..j])
    {
      out.Put(Int(s[j]));
      assert Ints(s[..j + 1]) == Ints(s[..j]) + [Int(s[j])];
    }
    assert s[..|s|] == s;
  }

  method PutReals(out: Writer, s: seq<real>)
    modifies out
    ensures out.text == old(out.text) + Reals(s)
  {
    ghost var start := out.text;
    for j := 0 to |s|
      invariant out.text == start + Reals(s[..j])
    {
      out.Put(Real(s[j]));
      assert Reals(s[..j + 1]) == Reals(s[..j]) + [Real(s[j])];
    }
    assert s[..|s|] == s;
  }

  method PutSplit(out: Writer, cd: int, cv: real, lo: real, hi: real)
    modifies out
    ensures out.text == old(out.text) + [Word("split"), Int(cd), Real(cv), Real(lo), Real(hi)]
  {
    out.Put(Word("split"));
    out.Put(Int(cd));
    out.Put(Real(cv));
    out.Put(Real(lo));
    out.Put(Real(hi));
  }

  lemma {:induction false} Assoc4(a: seq<Token>, b: seq<Token>, c: seq<Token>, d: seq<Token>, e: seq<Token>)
    ensures a + b + c + d == a + (b + (c + d))
    ensures a + b + c + d + e == a + (b + (c + (d + e)))
  {
  }

  method DumpNode(out: Writer, t: Node)
    modifies out
    ensures out.text == old(out.text) + Dumped(t)
    decreases t
  {
    ghost var start := out.text;
    match t
    case Leaf(bkt) =>
      out.Put(Word("leaf"));
      out.Put(Int(|bkt|));
      PutInts(out, bkt);
    case Split(cd, cv, lo, hi, low, high) =>
      PutSplit(out, cd, cv, lo, hi);
      DumpNode(out, low);
      DumpNode(out, high);
      Assoc4(start, [Word("split"), Int(cd), Real(cv), Real(lo), Real(hi)], Dumped(low), Dumped(high), []);
    case Shrink(bnds, inner, outer) =>
      out.Put(Word("shrink"));
      out.Put(Int(|bnds|));
      assert out.text == start + [Word("shrink"), Int(|bnds|)];
      PutBounds(out, bnds);
      DumpNode(out, inner);
      DumpNode(out, outer);
      Assoc4(start, [Word("shrink"), Int(|bnds|)], BoundTokens(bnds), Dumped(inner), Dumped(outer));
  }

  // ------------------------------------------------------------------
  // Reading

  datatype Error =
    | IllegalNode          // an unknown node tag
    | ShrinkInKdTree       // a shrinking node where a kd-tree is expected
    | Unreadable           // a token is missing or of the wrong kind, or a child is missing
    | TooManyPoints        // more indices than the index array holds
    | WrongHeader
    | NoPoints
    | PointOutOfRange
    | NoTreeSection

  datatype Outcome<T> = Done(value: T) | NullTree | Failed(error: Error)

  class Reader {
    const toks: seq<Token>
    var pos: nat

    constructor (toks: seq<Token>)
      ensures Valid() && Rest() == toks
    {
      this.toks := toks;
      pos := 0;
    }

    ghost predicate Valid()
      reads this
    {
      pos <= |toks|
    }

    // The tokens not yet read.
    ghost function Rest(): seq<Token>
      requires Valid()
      reads this
    {
      toks[pos..]
    }

    // Reads one token; the result is None at the end.
    method Next() returns (x: Option<Token>)
      requires Valid()
      modifies this
      ensures Valid() && (x.Some? <==> old(Rest()) != [])
      ensures x.Some? ==> old(Rest()) == [x.value] + Rest()
      ensures x.None? ==> Rest() == old(Rest())
    {
      x := None;
      if pos < |toks| {
        x := Some(toks[pos]);
        pos := pos + 1;
      }
    }

    method NextInt() returns (x: Option<int>)
      requires Valid()
      modifies this
      ensures Valid() && |Rest()| <= |old(Rest())|
      ensures x.Some? ==> old(Rest()) == [Int(x.value)] + Rest()
      ensures x.None? ==> old(Rest()) == [] || !old(Rest())[0].Int?
    {
      var t := Next();
      x := if t.Some? && t.value.Int? then Some(t.value.i) else None;
    }

    method NextReal() returns (x: Option<real>)
      requires Valid()
      modifies this
      ensures Valid() && |Rest()| <= |old(Rest())|
      ensures x.Some? ==> old(Rest()) == [Real(x.value)] + Rest()
      ensures x.None? ==> old(Rest()) == [] || !old(Rest())[0].Real?
    {
      var t := Next();
      x := if t.Some? && t.value.Real? then Some(t.value.r) else None;
    }

    method NextWord() returns (x: Option<string>)
      requires Valid()
      modifies this
      ensures Valid() && |Rest()| <= |old(Rest())|
      ensures x.Some? ==> old(Rest()) == [Word(x.value)] + Rest()
      ensures x.None? ==> old(Rest()) == [] || !old(Rest())[0].Word?
    {
      var t := Next();
      x := if t.Some? && t.value.Word? then Some(t.value.w) else None;
    }
  }

  lemma {:induction false} IntsConcat(a: seq<int>, b: seq<int>)
    ensures Ints(a + b) == Ints(a) + Ints(b)
  {
  }

  method ReadIndex(r: Reader, pidx: array<int>, next: nat, i: nat) returns (ok: bool)
    requires r.Valid() && next + i < pidx.Length
    modifies r, pidx
    ensures r.Valid() && |r.Rest()| <= |old(r.Rest())|
    ensures ok ==> old(r.Rest()) == [Int(pidx[next + i])] + r.Rest()
    ensures ok ==> pidx[next..next + i + 1] == old(pidx[next..next + i]) + [pidx[next + i]] && pidx[..next] == old(pidx[..next])
    ensures old(r.Rest()) != [] && old(r.Rest())[0].Int? ==> ok
  {
    var x := r.NextInt();
    ok := x.Some?;
    if ok {
      pidx[next + i] := x.value;
    }
  }

  lemma {:induction false} IndexAdded(stored: seq<int>, x: int, rest: seq<Token>)
    ensures Ints(stored) + ([Int(x)] + rest) == Ints(stored + [x]) + rest
  {
    IntsConcat(stored, [x]);
  }

  lemma {:induction false} NextIndex(hint: seq<int>, tail: seq<Token>, stored: seq<int>, rest: seq<Token>)
    requires Ints(hint) + tail == Ints(stored) + rest && |stored| < |hint|
    ensures rest != [] && rest[0].Int?
  {
    var all := Ints(hint) + tail;
    assert all[|stored|] == Int(hint[|stored|]);
    assert |all| == |stored| + |rest|;
    assert all[|stored|] == rest[0];
  }

  // Reads n indices into the index array from next on. Whenever the input goes on with the
  // integers of hint, and that many fit, this succeeds.
  method ReadIndices(r: Reader, n: nat, pidx: array<int>, next: nat, ghost hint: seq<int>, ghost tail: seq<Token>)
    returns (e: Option<Error>)
    requires r.Valid() && next <= pidx.Length
    modifies r, pidx
    ensures r.Valid() && |r.Rest()| <= |old(r.Rest())|
    ensures e.None? ==> next + n <= pidx.Length && old(r.Rest()) == Ints(pidx[next..next + n]) + r.Rest()
    ensures e.None? ==> pidx[..next] == old(pidx[..next])
    ensures |hint| == n && old(r.Rest()) == Ints(hint) + tail && next + n <= pidx.Length ==> e.None?
  {
    hide Ints;
    ghost var all := r.Rest();
    ghost var good := |hint| == n && all == Ints(hint) + tail;
    ghost var before := pidx[..next];
    NoInts();
    assert pidx[next..next + 0] == [];
    for i := 0 to n
      invariant r.Valid() && next + i <= pidx.Length && all == Ints(pidx[next..next + i]) + r.Rest()
      invariant |r.Rest()| <= |all| && pidx[..next] == before
    {
      if next + i >= pidx.Length {
        return Some(TooManyPoints);
      }
      ghost var stored := pidx[next..next + i];
      if good {
        NextIndex(hint, tail, stored, r.Rest());
      }
      var ok := ReadIndex(r, pidx, next, i);
      if !ok {
        return Some(Unreadable);
      }
      IndexAdded(stored, pidx[next + i], r.Rest());
    }
    e := None;
  }

  lemma {:induction false} NoInts()
    ensures Ints([]) == []
  {
  }

  lemma {:induction false} OneBound(h: HalfSpace)
    ensures BoundTokens([h]) == BoundTriple(h)
  {
    assert BoundTokens([h]) == BoundTriple(h) + BoundTokens([]);
  }

  method ReadBound(r: Reader, ghost hint: HalfSpace, ghost tail: seq<Token>) returns (h: Option<HalfSpace>)
    requires r.Valid()
    modifies r
    ensures r.Valid() && |r.Rest()| <= |old(r.Rest())|
    ensures h.Some? ==> old(r.Rest()) == BoundTriple(h.value) + r.Rest()
    ensures old(r.Rest()) == BoundTriple(hint) + tail ==> h == Some(hint) && r.Rest() == tail
  {
    h := None;
    ghost var all := r.Rest();
    ghost var good := all == BoundTriple(hint) + tail;
    assert good ==> all[0] == Int(hint.cd) && all[1] == Real(hint.cv) && all[2] == Int(hint.sd) && all[3..] == tail;
    var cd := r.NextInt();
    if cd.Some? {
      assert all == [Int(cd.value)] + r.Rest();
      assert good ==> r.Rest()[0] == all[1];
      var cv := r.NextReal();
      if cv.Some? {
        assert all == [Int(cd.value), Real(cv.value)] + r.Rest();
        assert good ==> r.Rest()[0] == all[2];
        var sd := r.NextInt();
        if sd.Some? {
          assert all == [Int(cd.value), Real(cv.value), Int(sd.value)] + r.Rest();
          h := Some(HalfSpace(cd.value, cv.value, sd.value));
          assert good ==> r.Rest() == all[3..];
        }
      }
    }
  }

  lemma {:induction false} FirstBound(hint: seq<HalfSpace>, tail: seq<Token>)
    requires |hint| > 0
    ensures BoundTokens(hint) + tail == BoundTriple(hint[0]) + (BoundTokens(hint[1..]) + tail)
  {
    assert BoundTokens(hint) == BoundTriple(hint[0]) + BoundTokens(hint[1..]);
    Assoc(BoundTriple(hint[0]), BoundTokens(hint[1..]), tail);
  }

  // Reads n half-spaces. Whenever the input goes on with those of hint, they are what is read.
  method ReadBounds(r: Reader, n: nat, ghost hint: seq<HalfSpace>, ghost tail: seq<Token>)
    returns (bnds: Option<seq<HalfSpace>>)
    requires r.Valid()
    modifies r
    ensures r.Valid() && |r.Rest()| <= |old(r.Rest())|
    ensures bnds.Some? ==> |bnds.value| == n && old(r.Rest()) == BoundTokens(bnds.value) + r.Rest()
    ensures |hint| == n && old(r.Rest()) == BoundTokens(hint) + tail ==> bnds == Some(hint) && r.Rest() == tail
  {
    hide BoundTokens, BoundTriple;
    ghost var all := r.Rest();
    ghost var good := |hint| == n && all == BoundTokens(hint) + tail;
    var hs: seq<HalfSpace> := [];
    NoBounds();
    assert hint[0..] == hint;
    for i := 0 to n
      invariant r.Valid() && |hs| == i && all == BoundTokens(hs) + r.Rest()
      invariant good ==> |hint| == n && hs == hint[..i] && r.Rest() == BoundTokens(hint[i..]) + tail
    {
      ghost var h0, after := HalfSpace(0, 0.0, 0), tail;
      if good {
        NextBound(hint, i, tail);
        h0, after := hint[i], BoundTokens(hint[i + 1..]) + tail;
      }
      var h := ReadBound(r, h0, after);
      if h.None? {
        return None;
      }
      BoundAdded(hs, h.value, r.Rest());
      hs := hs + [h.value];
    }
    assert hint[..|hint|] == hint;
    assert good ==> hint[n..] == [];
    bnds := Some(hs);
  }

  lemma {:induction false} NextBound(hint: seq<HalfSpace>, i: nat, tail: seq<Token>)
    requires i < |hint|
    ensures BoundTokens(hint[i..]) + tail == BoundTriple(hint[i]) + (BoundTokens(hint[i + 1..]) + tail)
    ensures hint[..i + 1] == hint[..i] + [hint[i]]
  {
    FirstBound(hint[i..], tail);
    assert hint[i..][1..] == hint[i + 1..];
  }

  lemma {:induction false} BoundAdded(hs: seq<HalfSpace>, h: HalfSpace, rest: seq<Token>)
    ensures BoundTokens(hs) + (BoundTriple(h) + rest) == BoundTokens(hs + [h]) + rest
  {
    BoundsConcat(hs, [h]);
    OneBound(h);
    Assoc(BoundTokens(hs), BoundTriple(h), rest);
  }

  lemma {:induction false} NoBounds()
    ensures BoundTokens([]) == []
  {
  }

  // A kd-tree file holds no shrinking nodes.
  ghost predicate Allowed(t: Node, bd: bool) {
    bd || NoShrink(t)
  }

  // ------------------------------------------------------------------
  // A token sequence starts with the dump of at most one tree

  function HeadTokens(cd: int, cv: real, lo: real, hi: real): seq<Token> {
    [Word("split"), Int(cd), Real(cv), Real(lo), Real(hi)]
  }

  lemma {:induction false} SplitStream(t: Node, x: seq<Token>)
    requires t.Split?
    ensures Dumped(t) + x == HeadTokens(t.cd, t.cv, t.lo, t.hi) + (Dumped(t.low) + (Dumped(t.high) + x))
  {
    Assoc(HeadTokens(t.cd, t.cv, t.lo, t.hi), Dumped(t.low) + Dumped(t.high), x);
    Assoc(Dumped(t.low), Dumped(t.high), x);
  }

  lemma {:induction false} ShrinkStream(t: Node, x: seq<Token>)
    requires t.Shrink?
    ensures Dumped(t) + x ==
            [Word("shrink"), Int(|t.bnds|)] + (BoundTokens(t.bnds) + (Dumped(t.inner) + (Dumped(t.outer) + x)))
  {
    Assoc([Word("shrink"), Int(|t.bnds|)], BoundTokens(t.bnds) + (Dumped(t.inner) + Dumped(t.outer)), x);
    Assoc(BoundTokens(t.bnds), Dumped(t.inner) + Dumped(t.outer), x);
    Assoc(Dumped(t.inner), Dumped(t.outer), x);
  }

  lemma {:induction false} LeafStream(t: Node, x: seq<Token>)
    requires t.Leaf?
    ensures Dumped(t) + x == [Word("leaf"), Int(|t.bkt|)] + (Ints(t.bkt) + x)
  {
    Assoc([Word("leaf"), Int(|t.bkt|)], Ints(t.bkt), x);
  }

  lemma {:induction false} SameFront(a: seq<Token>, b: seq<Token>, x: seq<Token>, y: seq<Token>)
    requires a + x == b + y && |a| == |b|
    ensures a == b && x == y
  {
    assert (a + x)[..|a|] == a && (b + y)[..|b|] == b;
    assert (a + x)[|a|..] == x && (b + y)[|b|..] == y;
  }

  lemma {:induction false} IntsInjective(a: seq<int>, b: seq<int>)
    requires Ints(a) == Ints(b)
    ensures a == b
  {
    assert |a| == |b|;
    forall i | 0 <= i < |a|
      ensures a[i] == b[i]
    {
      assert Ints(a)[i] == Ints(b)[i];
    }
  }

  lemma {:induction false} TripleInjective(a: HalfSpace, b: HalfSpace)
    requires BoundTriple(a) == BoundTriple(b)
    ensures a == b
  {
    assert BoundTriple(a)[0] == BoundTriple(b)[0];
    assert BoundTriple(a)[1] == BoundTriple(b)[1];
    assert BoundTriple(a)[2] == BoundTriple(b)[2];
  }

  lemma {:induction false} BoundsUnique(a: seq<HalfSpace>, b: seq<HalfSpace>, x: seq<Token>, y: seq<Token>)
    requires |a| == |b| && BoundTokens(a) + x == BoundTokens(b) + y
    ensures a == b && x == y
  {
    if |a| == 0 {
      assert [] + x == x && [] + y == y;
    } else {
      FirstBound(a, x);
      FirstBound(b, y);
      SameFront(BoundTriple(a[0]), BoundTriple(b[0]), BoundTokens(a[1..]) + x, BoundTokens(b[1..]) + y);
      TripleInjective(a[0], b[0]);
      BoundsUnique(a[1..], b[1..], x, y);
      assert a == [a[0]] + a[1..] && b == [b[0]] + b[1..];
    }
  }

  function Tag(t: Node): string {
    match t
    case Leaf(_) => "leaf"
    case Split(_, _, _, _, _, _) => "split"
    case Shrink(_, _, _) => "shrink"
  }

  lemma {:induction false} FirstToken(t: Node, x: seq<Token>)
    ensures (Dumped(t) + x) != [] && (Dumped(t) + x)[0] == Word(Tag(t))
  {
  }

  lemma {:induction false} TagKind(t: Node)
    ensures Tag(t) == "leaf" <==> t.Leaf?
    ensures Tag(t) == "split" <==> t.Split?
    ensures Tag(t) == "shrink" <==> t.Shrink?
    ensures Tag(t) != "null"
  {
    assert "leaf"[0] == 'l' && "split"[1] == 'p' && "shrink"[1] == 'h' && "null"[0] == 'n';
  }

  lemma {:induction false} DumpUnique(a: Node, b: Node, x: seq<Token>, y: seq<Token>)
    requires Dumped(a) + x == Dumped(b) + y
    ensures a == b && x == y
    decreases a
  {
    hide Dumped, BoundTokens, Ints, Tag;
    FirstToken(a, x);
    FirstToken(b, y);
    TagKind(a);
    TagKind(b);
    match a
    case Leaf(bkt) =>
      LeafStream(a, x);
      LeafStream(b, y);
      SameFront([Word("leaf"), Int(|bkt|)], [Word("leaf"), Int(|b.bkt|)], Ints(bkt) + x, Ints(b.bkt) + y);
      assert [Word("leaf"), Int(|bkt|)][1] == [Word("leaf"), Int(|b.bkt|)][1];
      IntsSize(bkt);
      IntsSize(b.bkt);
      SameFront(Ints(bkt), Ints(b.bkt), x, y);
      IntsInjective(bkt, b.bkt);
    case Split(cd, cv, lo, hi, low, high) =>
      SplitStream(a, x);
      SplitStream(b, y);
      SameFront(HeadTokens(cd, cv, lo, hi), HeadTokens(b.cd, b.cv, b.lo, b.hi),
                Dumped(low) + (Dumped(high) + x), Dumped(b.low) + (Dumped(b.high) + y));
      HeadInjective(cd, cv, lo, hi, b.cd, b.cv, b.lo, b.hi);
      DumpUnique(low, b.low, Dumped(high) + x, Dumped(b.high) + y);
      DumpUnique(high, b.high, x, y);
    case Shrink(bnds, inner, outer) =>
      ShrinkStream(a, x);
      ShrinkStream(b, y);
      SameFront([Word("shrink"), Int(|bnds|)], [Word("shrink"), Int(|b.bnds|)],
                BoundTokens(bnds) + (Dumped(inner) + (Dumped(outer) + x)),
                BoundTokens(b.bnds) + (Dumped(b.inner) + (Dumped(b.outer) + y)));
      assert [Word("shrink"), Int(|bnds|)][1] == [Word("shrink"), Int(|b.bnds|)][1];
      BoundsUnique(bnds, b.bnds, Dumped(inner) + (Dumped(outer) + x), Dumped(b.inner) + (Dumped(b.outer) + y));
      DumpUnique(inner, b.inner, Dumped(outer) + x, Dumped(b.outer) + y);
      DumpUnique(outer, b.outer, x, y);
  }

  lemma {:induction false} IntsSize(s: seq<int>)
    ensures |Ints(s)| == |s|
  {
  }

  lemma {:induction false} HeadInjective(cd: int, cv: real, lo: real, hi: real, cd2: int, cv2: real, lo2: real, hi2: real)
    requires HeadTokens(cd, cv, lo, hi) == HeadTokens(cd2, cv2, lo2, hi2)
    ensures cd == cd2 && cv == cv2 && lo == lo2 && hi == hi2
  {
    var a, b := HeadTokens(cd, cv, lo, hi), HeadTokens(cd2, cv2, lo2, hi2);
    assert a[1] == b[1] && a[2] == b[2] && a[3] == b[3] && a[4] == b[4];
  }

  // ------------------------------------------------------------------

  // What a successful load leaves behind: the tokens of the tree have been read, and its buckets
  // were appended to the index array.
  ghost predicate Loaded(t: Node, before: seq<Token>, after: seq<Token>, filled: seq<int>, filled2: seq<int>) {
    before == Dumped(t) + after && filled2 == filled + Buckets(t)
  }

  // The input starts with the dump of a tree that may be loaded and whose points still fit.
  ghost predicate Expects(t: Node, tail: seq<Token>, before: seq<Token>, bd: bool, room: int) {
    before == Dumped(t) + tail && Allowed(t, bd) && |Buckets(t)| <= room
  }

  lemma {:induction false} LoadedIsExpected(t: Node, before: seq<Token>, after: seq<Token>, filled: seq<int>, filled2: seq<int>,
                         hint: Node, tail: seq<Token>, bd: bool, room: int)
    requires Loaded(t, before, after, filled, filled2) && Expects(hint, tail, before, bd, room)
    ensures t == hint && after == tail
  {
    DumpUnique(t, hint, after, tail);
  }

  lemma {:induction false} RealAdded(stored: seq<real>, x: real, rest: seq<Token>)
    ensures Reals(stored) + ([Real(x)] + rest) == Reals(stored + [x]) + rest
  {
    assert Reals(stored + [x]) == Reals(stored) + [Real(x)];
  }

  lemma {:induction false} NextIsReal(hint: seq<real>, tail: seq<Token>, stored: seq<real>, rest: seq<Token>)
    requires Reals(hint) + tail == Reals(stored) + rest && |stored| < |hint|
    ensures rest != [] && rest[0].Real?
  {
    var all := Reals(hint) + tail;
    assert all[|stored|] == Real(hint[|stored|]);
    assert |all| == |stored| + |rest|;
    assert all[|stored|] == rest[0];
  }

  lemma {:induction false} RealsUnique(a: seq<real>, b: seq<real>, x: seq<Token>, y: seq<Token>)
    requires |a| == |b| && Reals(a) + x == Reals(b) + y
    ensures a == b && x == y
  {
    SameFront(Reals(a), Reals(b), x, y);
    forall i | 0 <= i < |a|
      ensures a[i] == b[i]
    {
      assert Reals(a)[i] == Reals(b)[i];
    }
  }

  lemma {:induction false} NoReals()
    ensures Reals([]) == []
  {
  }

  // Reads n coordinates. Whenever the input goes on with those of hint, this succeeds.
  method ReadReals(r: Reader, n: nat, ghost hint: seq<real>, ghost tail: seq<Token>) returns (x: Option<seq<real>>)
    requires r.Valid()
    modifies r
    ensures r.Valid() && |r.Rest()| <= |old(r.Rest())|
    ensures x.Some? ==> |x.value| == n && old(r.Rest()) == Reals(x.value) + r.Rest()
    ensures |hint| == n && old(r.Rest()) == Reals(hint) + tail ==> x == Some(hint) && r.Rest() == tail
  {
    hide Reals;
    ghost var all := r.Rest();
    ghost var good := |hint| == n && all == Reals(hint) + tail;
    var s: seq<real> := [];
    NoReals();
    for i := 0 to n
      invariant r.Valid() && |s| == i && all == Reals(s) + r.Rest() && |r.Rest()| <= |all|
    {
      if good {
        NextIsReal(hint, tail, s, r.Rest());
      }
      var v := r.NextReal();
      if v.None? {
        return None;
      }
      RealAdded(s, v.value, r.Rest());
      s := s + [v.value];
    }
    if good {
      RealsUnique(s, hint, r.Rest(), tail);
    }
    x := Some(s);
  }

  datatype SplitHead = SplitHead(cd: int, cv: real, lo: real, hi: real)

  lemma {:induction false} HeadStream(cd: int, cv: real, lo: real, hi: real, x: seq<Token>)
    ensures HeadTokens(cd, cv, lo, hi) + x == [Word("split")] + ([Int(cd)] + (Reals([cv, lo, hi]) + x))
  {
  }

  method ReadSplitHead(r: Reader, ghost hint: Node, ghost tail: seq<Token>) returns (h: Option<SplitHead>)
    requires r.Valid()
    modifies r
    ensures r.Valid() && |r.Rest()| <= |old(r.Rest())|
    ensures h.Some? ==>
              [Word("split")] + old(r.Rest()) == HeadTokens(h.value.cd, h.value.cv, h.value.lo, h.value.hi) + r.Rest()
    ensures hint.Split? && [Word("split")] + old(r.Rest()) == HeadTokens(hint.cd, hint.cv, hint.lo, hint.hi) + tail ==> h.Some?
  {
    hide HeadTokens, Reals;
    h := None;
    ghost var all := r.Rest();
    ghost var good := hint.Split? && [Word("split")] + all == HeadTokens(hint.cd, hint.cv, hint.lo, hint.hi) + tail;
    ghost var reals := if hint.Split? then [hint.cv, hint.lo, hint.hi] else [];
    if good {
      HeadStream(hint.cd, hint.cv, hint.lo, hint.hi, tail);
      SameFront([Word("split")], [Word("split")], all, [Int(hint.cd)] + (Reals(reals) + tail));
    }
    var cd := r.NextInt();
    if cd.Some? {
      if good {
        SameFront([Int(cd.value)], [Int(hint.cd)], r.Rest(), Reals(reals) + tail);
      }
      var x := ReadReals(r, 3, reals, tail);
      if x.Some? {
        h := Some(SplitHead(cd.value, x.value[0], x.value[1], x.value[2]));
        assert x.value == [x.value[0], x.value[1], x.value[2]];
        HeadStream(cd.value, x.value[0], x.value[1], x.value[2], r.Rest());
      }
    }
  }

  method ReadLeaf(r: Reader, pidx: array<int>, next: nat, ghost hint: Node, ghost tail: seq<Token>)
    returns (t: Outcome<Node>, next2: nat)
    requires r.Valid() && next <= pidx.Length
    modifies r, pidx
    ensures r.Valid() && |r.Rest()| <= |old(r.Rest())| && next2 <= pidx.Length
    ensures t.Done? ==> Loaded(t.value, [Word("leaf")] + old(r.Rest()), r.Rest(), old(pidx[..next]), pidx[..next2])
                        && NoShrink(t.value)
    ensures hint.Leaf? && Expects(hint, tail, [Word("leaf")] + old(r.Rest()), true, pidx.Length - next) ==> t.Done?
  {
    hide Ints, Dumped;
    ghost var all := r.Rest();
    ghost var good := hint.Leaf? && Expects(hint, tail, [Word("leaf")] + all, true, pidx.Length - next);
    ghost var want := if hint.Leaf? then hint.bkt else [];
    if good {
      LeafStream(hint, tail);
      LeafHead(want, all, tail);
    }
    next2 := next;
    var n := r.NextInt();
    if n.None? || n.value < 0 {
      return Failed(Unreadable), next2;
    }
    ghost var rest := r.Rest();
    if good {
      LeafCount(n.value, rest, want, tail);
    }
    if n.value == 0 {
      t := Done(TRIVIAL);
      NoInts();
    } else {
      var e := ReadIndices(r, n.value, pidx, next, want, tail);
      if e.Some? {
        return Failed(e.value), next2;
      }
      next2 := next + n.value;
      t := Done(Leaf(pidx[next..next2]));
    }
    LeafLoaded(t.value.bkt, all, rest, r.Rest());
    assert pidx[..next2] == pidx[..next] + pidx[next..next2];
  }

  lemma {:induction false} LeafHead(want: seq<int>, all: seq<Token>, tail: seq<Token>)
    requires [Word("leaf")] + all == [Word("leaf"), Int(|want|)] + (Ints(want) + tail)
    ensures all == [Int(|want|)] + (Ints(want) + tail) && all != [] && all[0] == Int(|want|)
  {
    assert [Word("leaf"), Int(|want|)] + (Ints(want) + tail) == [Word("leaf")] + ([Int(|want|)] + (Ints(want) + tail));
    SameFront([Word("leaf")], [Word("leaf")], all, [Int(|want|)] + (Ints(want) + tail));
  }

  lemma {:induction false} LeafCount(n: int, rest: seq<Token>, want: seq<int>, tail: seq<Token>)
    requires [Int(n)] + rest == [Int(|want|)] + (Ints(want) + tail)
    ensures n == |want| && rest == Ints(want) + tail
  {
    SameFront([Int(n)], [Int(|want|)], rest, Ints(want) + tail);
    assert [Int(n)][0] == [Int(|want|)][0];
  }

  lemma {:induction false} LeafLoaded(bkt: seq<int>, all: seq<Token>, rest: seq<Token>, after: seq<Token>)
    requires all == [Int(|bkt|)] + rest && rest == Ints(bkt) + after
    ensures [Word("leaf")] + all == Dumped(Leaf(bkt)) + after
  {
    LeafStream(Leaf(bkt), after);
    assert [Word("leaf")] + all == [Word("leaf"), Int(|bkt|)] + rest;
  }

  // Loads a node, storing the point indices of its leaves from next on. The dump of a tree is
  // always loaded back as that tree, and only dumps are loaded. The word null stands for no tree.
  method ReadTree(r: Reader, bd: bool, pidx: array<int>, next: nat, ghost hint: Node, ghost tail: seq<Token>)
    returns (t: Outcome<Node>, next2: nat)
    requires r.Valid() && next <= pidx.Length
    modifies r, pidx
    ensures r.Valid() && |r.Rest()| <= |old(r.Rest())| && next2 <= pidx.Length
    ensures t.Done? ==> Loaded(t.value, old(r.Rest()), r.Rest(), old(pidx[..next]), pidx[..next2]) && Allowed(t.value, bd)
    ensures Expects(hint, tail, old(r.Rest()), bd, pidx.Length - next) ==> t == Done(hint) && r.Rest() == tail
    ensures old(r.Rest()) == [Word("null")] + tail ==> t == NullTree && r.Rest() == tail && next2 == next
    decreases |r.Rest()|, 0
  {
    hide Dumped, Buckets, NoShrink, Tag;
    next2 := next;
    ghost var all := r.Rest();
    ghost var good := Expects(hint, tail, all, bd, pidx.Length - next);
    if good {
      FirstToken(hint, tail);
      TagKind(hint);
    }
    var tag := r.NextWord();
    if tag.None? {
      return Failed(Unreadable), next2;
    }
    assert good ==> tag.value == Tag(hint);
    if all == [Word("null")] + tail {
      SameFront([Word(tag.value)], [Word("null")], r.Rest(), tail);
      assert [Word(tag.value)][0] == [Word("null")][0];
    }
    if tag.value == "null" {
      t := NullTree;
    } else if tag.value == "leaf" {
      t, next2 := ReadLeaf(r, pidx, next, hint, tail);
    } else if tag.value == "split" {
      t, next2 := ReadSplit(r, bd, pidx, next, hint, tail);
    } else if tag.value == "shrink" {
      if bd {
        t, next2 := ReadShrink(r, pidx, next, hint, tail);
      } else {
        t := Failed(ShrinkInKdTree);
        if good {
          ShrinkNotAllowed(hint);
        }
      }
    } else {
      t := Failed(IllegalNode);
    }
    if good && t.Done? {
      LoadedIsExpected(t.value, all, r.Rest(), old(pidx[..next]), pidx[..next2], hint, tail, bd, pidx.Length - next);
    }
  }

  lemma {:induction false} ShrinkNotAllowed(t: Node)
    requires t.Shrink?
    ensures !Allowed(t, false)
  {
  }

  method ReadSplit(r: Reader, bd: bool, pidx: array<int>, next: nat, ghost hint: Node, ghost tail: seq<Token>)
    returns (t: Outcome<Node>, next2: nat)
    requires r.Valid() && next <= pidx.Length
    modifies r, pidx
    ensures r.Valid() && |r.Rest()| <= |old(r.Rest())| && next2 <= pidx.Length
    ensures t.Done? ==> Loaded(t.value, [Word("split")] + old(r.Rest()), r.Rest(), old(pidx[..next]), pidx[..next2])
                        && Allowed(t.value, bd)
    ensures hint.Split? && Expects(hint, tail, [Word("split")] + old(r.Rest()), bd, pidx.Length - next) ==> t.Done?
    decreases |r.Rest()|, 1
  {
    hide Dumped, HeadTokens, Buckets, NoShrink;
    next2 := next;
    ghost var all := [Word("split")] + r.Rest();
    ghost var s0 := pidx[..next];
    ghost var good := hint.Split? && Expects(hint, tail, all, bd, pidx.Length - next);
    ghost var a, b := TRIVIAL, TRIVIAL;
    ghost var x, y := tail, tail;
    if good {
      a, b := hint.low, hint.high;
      x, y := Dumped(a) + (Dumped(b) + tail), Dumped(b) + tail;
      SplitStream(hint, tail);
    }
    var h := ReadSplitHead(r, hint, x);
    if h.None? {
      return Failed(Unreadable), next2;
    }
    ghost var rest1 := r.Rest();
    if good {
      HeadRead(h.value, hint, rest1, x);
      SplitExpects(hint, bd, pidx.Length - next);
    }
    HeadShorter(h.value, all, rest1);
    var low;
    low, next2 := ReadTree(r, bd, pidx, next, a, y);
    if !low.Done? {
      return Failed(if low.Failed? then low.error else Unreadable), next2;
    }
    ghost var rest2 := r.Rest();
    ghost var s1 := pidx[..next2];
    ghost var next1 := next2;
    var high;
    high, next2 := ReadTree(r, bd, pidx, next2, b, tail);
    if !high.Done? {
      return Failed(if high.Failed? then high.error else Unreadable), next2;
    }
    t := Done(Split(h.value.cd, h.value.cv, h.value.lo, h.value.hi, low.value, high.value));
    SplitLoaded(t.value, all, rest1, rest2, r.Rest(), s0, s1, pidx[..next2], bd);
  }

  lemma {:induction false} HeadShorter(h: SplitHead, all: seq<Token>, rest: seq<Token>)
    requires all == HeadTokens(h.cd, h.cv, h.lo, h.hi) + rest
    ensures |rest| + 5 == |all|
  {
  }

  lemma {:induction false} HeadRead(h: SplitHead, hint: Node, rest: seq<Token>, x: seq<Token>)
    requires hint.Split? && HeadTokens(h.cd, h.cv, h.lo, h.hi) + rest == HeadTokens(hint.cd, hint.cv, hint.lo, hint.hi) + x
    ensures rest == x
  {
    SameFront(HeadTokens(h.cd, h.cv, h.lo, h.hi), HeadTokens(hint.cd, hint.cv, hint.lo, hint.hi), rest, x);
  }

  lemma {:induction false} SplitExpects(hint: Node, bd: bool, room: int)
    requires hint.Split? && Allowed(hint, bd) && |Buckets(hint)| <= room
    ensures Allowed(hint.low, bd) && Allowed(hint.high, bd) && |Buckets(hint.low)| + |Buckets(hint.high)| <= room
  {
  }

  lemma {:induction false} SplitLoaded(t: Node, all: seq<Token>, rest1: seq<Token>, rest2: seq<Token>, rest3: seq<Token>,
                    s0: seq<int>, s1: seq<int>, s2: seq<int>, bd: bool)
    requires t.Split? && all == HeadTokens(t.cd, t.cv, t.lo, t.hi) + rest1
    requires Loaded(t.low, rest1, rest2, s0, s1) && Loaded(t.high, rest2, rest3, s1, s2)
    requires Allowed(t.low, bd) && Allowed(t.high, bd)
    ensures Loaded(t, all, rest3, s0, s2) && Allowed(t, bd)
  {
    SplitStream(t, rest3);
    assert s2 == s0 + (Buckets(t.low) + Buckets(t.high));
  }

  method ReadShrink(r: Reader, pidx: array<int>, next: nat, ghost hint: Node, ghost tail: seq<Token>)
    returns (t: Outcome<Node>, next2: nat)
    requires r.Valid() && next <= pidx.Length
    modifies r, pidx
    ensures r.Valid() && |r.Rest()| <= |old(r.Rest())| && next2 <= pidx.Length
    ensures t.Done? ==> Loaded(t.value, [Word("shrink")] + old(r.Rest()), r.Rest(), old(pidx[..next]), pidx[..next2])
    ensures hint.Shrink? && Expects(hint, tail, [Word("shrink")] + old(r.Rest()), true, pidx.Length - next) ==> t.Done?
    decreases |r.Rest()|, 1
  {
    hide Dumped, Buckets, BoundTokens, NoShrink;
    next2 := next;
    ghost var all := r.Rest();
    ghost var s0 := pidx[..next];
    ghost var good := hint.Shrink? && Expects(hint, tail, [Word("shrink")] + all, true, pidx.Length - next);
    ghost var a, b, bounds := TRIVIAL, TRIVIAL, [];
    ghost var x, y := tail, tail;
    if good {
      a, b, bounds := hint.inner, hint.outer, hint.bnds;
      x, y := Dumped(a) + (Dumped(b) + tail), Dumped(b) + tail;
      ShrinkStream(hint, tail);
      ShrinkHead(bounds, all, x);
      ShrinkExpects(hint, pidx.Length - next);
    }
    var n := r.NextInt();
    if n.None? || n.value < 0 {
      return Failed(Unreadable), next2;
    }
    ghost var rest0 := r.Rest();
    if good {
      ShrinkCount(n.value, rest0, bounds, x);
    }
    var bnds := ReadBounds(r, n.value, bounds, x);
    if bnds.None? {
      return Failed(Unreadable), next2;
    }
    ghost var rest1 := r.Rest();
    var inner;
    inner, next2 := ReadTree(r, true, pidx, next, a, y);
    if !inner.Done? {
      return Failed(if inner.Failed? then inner.error else Unreadable), next2;
    }
    ghost var rest2 := r.Rest();
    ghost var s1 := pidx[..next2];
    var outer;
    outer, next2 := ReadTree(r, true, pidx, next2, b, tail);
    if !outer.Done? {
      return Failed(if outer.Failed? then outer.error else Unreadable), next2;
    }
    t := Done(Shrink(bnds.value, inner.value, outer.value));
    ShrinkLoaded(t.value, all, rest0, rest1, rest2, r.Rest(), s0, s1, pidx[..next2]);
  }

  lemma {:induction false} ShrinkHead(bounds: seq<HalfSpace>, all: seq<Token>, x: seq<Token>)
    requires [Word("shrink")] + all == [Word("shrink"), Int(|bounds|)] + (BoundTokens(bounds) + x)
    ensures all == [Int(|bounds|)] + (BoundTokens(bounds) + x) && all != [] && all[0] == Int(|bounds|)
  {
    assert [Word("shrink"), Int(|bounds|)] + (BoundTokens(bounds) + x) ==
           [Word("shrink")] + ([Int(|bounds|)] + (BoundTokens(bounds) + x));
    SameFront([Word("shrink")], [Word("shrink")], all, [Int(|bounds|)] + (BoundTokens(bounds) + x));
  }

  lemma {:induction false} ShrinkCount(n: int, rest: seq<Token>, bounds: seq<HalfSpace>, x: seq<Token>)
    requires [Int(n)] + rest == [Int(|bounds|)] + (BoundTokens(bounds) + x)
    ensures n == |bounds| && rest == BoundTokens(bounds) + x
  {
    SameFront([Int(n)], [Int(|bounds|)], rest, BoundTokens(bounds) + x);
    assert [Int(n)][0] == [Int(|bounds|)][0];
  }

  lemma {:induction false} ShrinkExpects(hint: Node, room: int)
    requires hint.Shrink? && |Buckets(hint)| <= room
    ensures |Buckets(hint.inner)| + |Buckets(hint.outer)| <= room
  {
  }

  lemma {:induction false} ShrinkLoaded(t: Node, all: seq<Token>, rest0: seq<Token>, rest1: seq<Token>, rest2: seq<Token>, rest3: seq<Token>,
                     s0: seq<int>, s1: seq<int>, s2: seq<int>)
    requires t.Shrink? && all == [Int(|t.bnds|)] + rest0 && rest0 == BoundTokens(t.bnds) + rest1
    requires Loaded(t.inner, rest1, rest2, s0, s1) && Loaded(t.outer, rest2, rest3, s1, s2)
    ensures Loaded(t, [Word("shrink")] + all, rest3, s0, s2)
  {
    ShrinkStream(t, rest3);
    assert [Word("shrink")] + all == [Word("shrink"), Int(|t.bnds|)] + rest0;
    assert s2 == s0 + (Buckets(t.inner) + Buckets(t.outer));
  }
}
