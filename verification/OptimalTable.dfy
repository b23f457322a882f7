// jpeg_gen_optimal_table as a whole: from symbol counts to a table that the encoder accepts
// and that has a code for every symbol counted.
module OptimalTable {
  import opened Arith
  import opened HuffmanTree
  import opened CodeSizes
  import opened LengthLimit
  import opened HuffmanCodes
  import opened DerivedTables

  // ----- from code sizes to length counts -----

  /** 2^-c in units of 2^-32. */
  function Unit(c: nat): nat {
    if c <= 32 then Pow2(32 - c) else 0
  }

  function KraftIn(cs: seq<nat>, u: set<nat>, n: nat): nat
    requires n <= |cs|
  {
    if n == 0 then 0 else KraftIn(cs, u, n - 1) + if n - 1 in u then Unit(cs[n - 1]) else 0
  }

  function NumberIn(u: set<nat>, n: nat): nat {
    if n == 0 then 0 else NumberIn(u, n - 1) + if n - 1 in u then 1 else 0
  }

  lemma {:induction false} NumberIsSize(u: set<nat>, n: nat)
    requires forall s :: s in u ==> s < n
    ensures NumberIn(u, n) == |u|
  {
    if n == 0 {
      assert u == {};
    } else {
      var v := u - {n - 1};
      NumberIsSize(v, n - 1);
      SameNumber(u, v, n - 1);
    }
  }

  lemma {:induction false} SameNumber(u: set<nat>, v: set<nat>, n: nat)
    requires forall s :: 0 <= s < n ==> (s in u <==> s in v)
    ensures NumberIn(u, n) == NumberIn(v, n)
  {
    if n > 0 {
      SameNumber(u, v, n - 1);
    }
  }

  lemma {:induction false} KraftUnion(cs: seq<nat>, u: set<nat>, v: set<nat>, n: nat)
    requires n <= |cs| && u !! v
    ensures KraftIn(cs, u + v, n) == KraftIn(cs, u, n) + KraftIn(cs, v, n)
    decreases n
  {
    if n > 0 {
      KraftUnion(cs, u, v, n - 1);
    }
    hide Unit;
  }

  lemma {:induction false} KraftOne(cs: seq<nat>, s: nat, n: nat)
    requires n <= |cs|
    ensures KraftIn(cs, {s}, n) == if s < n then Unit(cs[s]) else 0
    decreases n
  {
    if n > 0 {
      KraftOne(cs, s, n - 1);
    }
    hide Unit;
  }

  /** The depths of a full tree have Kraft sum 1. */
  lemma {:induction false} TreeKraft(t: Tree, cs: seq<nat>, k: nat)
    requires Proper(t) && IsDepth(t, cs, k) && Height(t) + k <= 32
    ensures KraftIn(cs, Leaves(t), |cs|) == Pow2(32 - k)
  {
    hide Pow2;
    if t.Leaf? {
      assert t.sym in Leaves(t);
      KraftOne(cs, t.sym, |cs|);
    } else {
      ChildDepths(t, cs, k);
      TreeKraft(t.left, cs, k + 1);
      TreeKraft(t.right, cs, k + 1);
      KraftUnion(cs, Leaves(t.left), Leaves(t.right), |cs|);
      HalfPower(32 - k);
    }
  }

  lemma {:induction false} HalfPower(n: nat)
    requires n > 0
    ensures Pow2(n) == Pow2(n - 1) + Pow2(n - 1)
  {
  }

  /** Some symbol is as deep as the tree is high. */
  lemma {:induction false} HeightReached(t: Tree) returns (s: nat)
    ensures s in Leaves(t) && (Proper(t) ==> Depth(t, s) == Height(t))
  {
    if t.Leaf? {
      s := t.sym;
    } else if Height(t.left) >= Height(t.right) {
      s := HeightReached(t.left);
    } else {
      s := HeightReached(t.right);
    }
  }

  ghost predicate AllWithin(cs: seq<nat>) {
    forall s :: 0 <= s < |cs| ==> cs[s] <= 32
  }

  /** The symbols below n of one code size. */
  ghost function OfSize(cs: seq<nat>, n: nat, l: nat): set<nat>
    requires n <= |cs|
  {
    set s: nat | s < n && cs[s] == l
  }

  lemma {:induction false} SizeMore(cs: seq<nat>, n: nat, l: nat)
    requires n < |cs|
    ensures |OfSize(cs, n + 1, l)| == |OfSize(cs, n, l)| + if cs[n] == l then 1 else 0
  {
    var u := OfSize(cs, n, l);
    assert OfSize(cs, n + 1, l) == if cs[n] == l then u + {n} else u;
  }

  ghost predicate SizesCounted(cs: seq<nat>, n: nat, bits: seq<nat>)
    requires n <= |cs|
  {
    |bits| == MAX_CLEN + 1 && forall l :: 1 <= l <= MAX_CLEN ==> bits[l] == |OfSize(cs, n, l)|
  }

  lemma {:induction false} NoSizes(cs: seq<nat>, bits: seq<nat>)
    requires |bits| == MAX_CLEN + 1 && forall l :: 0 <= l <= MAX_CLEN ==> bits[l] == 0
    ensures SizesCounted(cs, 0, bits)
  {
    forall l | 1 <= l <= MAX_CLEN ensures |OfSize(cs, 0, l)| == 0 {
      assert OfSize(cs, 0, l) == {};
    }
  }

  lemma {:induction false} CountedMore(cs: seq<nat>, n: nat, bits: seq<nat>)
    requires n < |cs| && SizesCounted(cs, n, bits) && cs[n] <= MAX_CLEN
    ensures SizesCounted(cs, n + 1, if cs[n] == 0 then bits else bits[cs[n] := bits[cs[n]] + 1])
  {
    hide OfSize;
    var b := if cs[n] == 0 then bits else bits[cs[n] := bits[cs[n]] + 1];
    forall l | 1 <= l <= MAX_CLEN ensures b[l] == |OfSize(cs, n + 1, l)| {
      SizeMore(cs, n, l);
    }
  }

  /** Counting the symbols of each code length; false where a code is longer than 32 bits. */
  method CountLengths(codesize: array<nat>, ghost u: set<nat>) returns (ok: bool, bits: array<nat>)
    requires codesize.Length == SYMBOLS && forall s :: 0 <= s < SYMBOLS ==> (codesize[s] > 0 <==> s in u)
    ensures ok <==> AllWithin(codesize[..])
    ensures bits.Length == MAX_CLEN + 1 && fresh(bits)
    ensures ok ==> bits[0] == 0 && Count(bits[..]) == NumberIn(u, SYMBOLS) && Kraft32(bits[..]) == KraftIn(codesize[..], u, SYMBOLS)
    ensures ok ==> SizesCounted(codesize[..], SYMBOLS, bits[..])
  {
    hide Kraft32, Count, Pow2, SizesCounted;
    bits := new nat[MAX_CLEN + 1](_ => 0);
    NoneYet(bits[..]);
    ghost var cs := codesize[..];
    NoSizes(cs, bits[..]);
    var i := 0;
    while i <= 256
      invariant 0 <= i <= SYMBOLS && bits[0] == 0 && codesize[..] == cs
      invariant forall s :: 0 <= s < i ==> cs[s] <= MAX_CLEN
      invariant Count(bits[..]) == NumberIn(u, i) && Kraft32(bits[..]) == KraftIn(cs, u, i)
      invariant SizesCounted(cs, i, bits[..])
    {
      var l := codesize[i];
      assert cs[i] == l;
      if l <= MAX_CLEN {
        CountedMore(cs, i, bits[..]);
      }
      if l != 0 {
        if l > MAX_CLEN {
          return false, bits;
        }
        ghost var b := bits[..];
        ChangeOne(b, l, b[l] + 1);
        Times(b[l], 1, Pow2(32 - l));
        bits[l] := bits[l] + 1;
        assert bits[..] == b[l := b[l] + 1];
      }
      i := i + 1;
    }
    ok := true;
  }

  lemma {:induction false} NoneYet(bits: seq<nat>)
    requires |bits| == MAX_CLEN + 1 && forall l :: 0 <= l <= MAX_CLEN ==> bits[l] == 0
    ensures Count(bits) == 0 && Kraft32(bits) == 0
  {
    NoneCounted(bits, MAX_CLEN);
    NoneKraft(bits, MAX_CLEN);
    hide KraftUpTo, CountUpTo;
  }

  // ----- the list of symbols -----

  /** The symbols of a size below i, and those of size i below j. */
  ghost predicate SeenTo(cs: seq<nat>, seen: set<nat>, i: nat, j: nat) {
    |cs| == SYMBOLS && forall s: nat :: s in seen <==> s < 256 && (0 < cs[s] < i || (0 < cs[s] == i && s < j))
  }

  lemma {:induction false} SeenMore(cs: seq<nat>, seen: set<nat>, i: nat, j: nat)
    requires SeenTo(cs, seen, i, j) && j < 256 && i > 0
    ensures SeenTo(cs, if cs[j] == i then seen + {j} else seen, i, j + 1)
    ensures cs[j] == i ==> j !in seen
  {
  }

  lemma {:induction false} SeenSize(cs: seq<nat>, seen: set<nat>, used: set<nat>, i: nat, j: nat)
    requires SeenTo(cs, seen, i, j) && forall s :: s in used <==> 0 <= s < 256 && cs[s] > 0
    ensures seen <= used && |seen| <= |used|
  {
    Smaller(seen, used);
  }

  lemma {:induction false} ListBound(vals: seq<nat>, n: nat, u: set<nat>)
    requires Lists(vals, n, u)
    ensures n <= 256
  {
  }

  /** From place `from` on only symbols of size i, in ascending order. */
  ghost predicate AllOfSize(cs: seq<nat>, vals: seq<nat>, from: nat, i: nat) {
    && (forall p :: from <= p < |vals| ==> vals[p] < |cs| && cs[vals[p]] == i)
    && forall p, q :: from <= p < q < |vals| ==> vals[p] < vals[q]
  }

  /** How many used symbols have a code size below l. */
  ghost function Shorter(cs: seq<nat>, l: nat): set<nat>
    requires |cs| == SYMBOLS
  {
    set s: nat | s < 256 && 0 < cs[s] < l
  }

  /** Every listed symbol has its place among those of its code size, behind all shorter ones. */
  ghost predicate Placed(cs: seq<nat>, vals: seq<nat>) {
    && |cs| == SYMBOLS
    && (forall p :: 0 <= p < |vals| ==> vals[p] < 256 && |Shorter(cs, cs[vals[p]])| <= p < |Shorter(cs, cs[vals[p]] + 1)|)
    && forall p, q :: 0 <= p < q < |vals| && cs[vals[p]] == cs[vals[q]] ==> vals[p] < vals[q]
  }

  lemma {:induction false} SeenIsShorter(cs: seq<nat>, seen: set<nat>, i: nat)
    requires SeenTo(cs, seen, i, 0)
    ensures seen == Shorter(cs, i)
  {
  }

  /** The symbols of one more code size keep their places. */
  lemma {:induction false} PlacedMore(cs: seq<nat>, old0: seq<nat>, vals: seq<nat>, i: nat)
    requires Placed(cs, old0) && |old0| <= |vals| && vals[..|old0|] == old0 && AllOfSize(cs, vals, |old0|, i)
    requires |old0| == |Shorter(cs, i)| && |vals| == |Shorter(cs, i + 1)| && forall p :: 0 <= p < |vals| ==> vals[p] < 256
    ensures Placed(cs, vals)
  {
    hide Shorter;
    forall p | 0 <= p < |vals| ensures |Shorter(cs, cs[vals[p]])| <= p < |Shorter(cs, cs[vals[p]] + 1)| {
      if p < |old0| {
        assert vals[p] == old0[p];
      }
    }
    forall p, q | 0 <= p < q < |vals| && cs[vals[p]] == cs[vals[q]] ensures vals[p] < vals[q] {
      if p < |old0| {
        assert vals[p] == old0[p];
        if q < |old0| {
          assert vals[q] == old0[q];
        }
      }
    }
  }

  /** Places in order of code size. */
  lemma {:induction false} PlacedSorted(cs: seq<nat>, vals: seq<nat>, p: nat, q: nat)
    requires Placed(cs, vals) && p < q < |vals|
    ensures cs[vals[p]] <= cs[vals[q]] && (cs[vals[p]] == cs[vals[q]] ==> vals[p] < vals[q])
  {
    if cs[vals[q]] < cs[vals[p]] {
      Smaller(Shorter(cs, cs[vals[q]] + 1), Shorter(cs, cs[vals[p]]));
    }
  }

  /** The symbols of one code size, in order. */
  method ListSize(codesize: array<nat>, huffval: array<nat>, i: nat, n0: nat, ghost used: set<nat>, ghost seen0: set<nat>)
    returns (n: nat, ghost seen: set<nat>)
    requires codesize.Length == SYMBOLS && huffval.Length == 256 && codesize != huffval && i > 0
    requires |used| <= 254 && forall s :: s in used <==> 0 <= s < 256 && codesize[..][s] > 0
    requires SeenTo(codesize[..], seen0, i, 0) && n0 == |seen0| && Lists(huffval[..], n0, seen0)
    modifies huffval
    ensures SeenTo(codesize[..], seen, i, 256) && n == |seen| && Lists(huffval[..], n, seen) && n0 <= n <= 256
    ensures huffval[..n0] == old(huffval[..n0]) && AllOfSize(codesize[..], huffval[..n], n0, i)
  {
    hide Lists, SeenTo;
    ListBound(huffval[..], n0, seen0);
    ghost var cs := codesize[..];
    n, seen := n0, seen0;
    var j := 0;
    while j <= 255
      invariant 0 <= j <= 256 && codesize[..] == cs && n == |seen|
      invariant SeenTo(cs, seen, i, j) && Lists(huffval[..], n, seen)
      invariant n0 <= n <= 256 && huffval[..n0] == old(huffval[..n0]) && AllOfSize(cs, huffval[..n], n0, i)
      invariant forall p :: n0 <= p < n ==> huffval[p] < j
    {
      SeenMore(cs, seen, i, j);
      SeenSize(cs, seen, used, i, j);
      assert codesize[j] == cs[j];
      if codesize[j] == i {
        ghost var vals := huffval[..];
        ListMore(vals, n, seen, j);
        huffval[n] := j;
        assert huffval[..] == vals[n := j];
        assert huffval[..n + 1] == vals[..n] + [j];
        seen := seen + {j};
        n := n + 1;
      }
      j := j + 1;
    }
  }

  /** The symbols in order of their original code size. */
  method ListSymbols(codesize: array<nat>, ghost used: set<nat>) returns (huffval: array<nat>, ghost p: nat)
    requires codesize.Length == SYMBOLS && |used| <= 254 && forall s :: s in used <==> 0 <= s < 256 && codesize[..][s] > 0
    requires AllWithin(codesize[..])
    ensures huffval.Length == 256 && p == |used| && Lists(huffval[..], p, used) && p <= 256 && Placed(codesize[..], huffval[..p])
  {
    hide Lists, SeenTo, AllWithin, Placed, Shorter, AllOfSize;
    huffval := new nat[256](_ => 0);
    ghost var seen: set<nat> := {};
    ghost var cs := codesize[..];
    ListNone(cs, huffval[..]);
    NonePlaced(cs);
    p := 0;
    var n: nat := 0;
    assert huffval[..0] == [];
    var i := 1;
    while i <= MAX_CLEN
      invariant 1 <= i <= MAX_CLEN + 1 && codesize[..] == cs && n == |seen| && n <= 256
      invariant SeenTo(cs, seen, i, 0) && Lists(huffval[..], n, seen) && Placed(cs, huffval[..n])
    {
      ghost var vals := huffval[..n];
      SeenIsShorter(cs, seen, i);
      n, seen := ListSize(codesize, huffval, i, n, used, seen);
      SeenNext(cs, seen, i);
      SeenIsShorter(cs, seen, i + 1);
      ListBytes(huffval[..], n, seen);
      assert huffval[..n][..|vals|] == vals;
      PlacedMore(cs, vals, huffval[..n], i);
      i := i + 1;
    }
    SeenAll(cs, seen, used);
    p := n;
  }

  lemma {:induction false} NonePlaced(cs: seq<nat>)
    requires |cs| == SYMBOLS
    ensures Placed(cs, [])
  {
  }

  lemma {:induction false} ListBytes(vals: seq<nat>, n: nat, u: set<nat>)
    requires Lists(vals, n, u)
    ensures n <= 256 && forall p :: 0 <= p < n ==> vals[..n][p] < 256
  {
  }

  lemma {:induction false} ListNone(cs: seq<nat>, vals: seq<nat>)
    requires |cs| == SYMBOLS && |vals| == 256 && forall q :: 0 <= q < 256 ==> vals[q] == 0
    ensures SeenTo(cs, {}, 1, 0) && Lists(vals, 0, {})
  {
  }

  lemma {:induction false} SeenNext(cs: seq<nat>, seen: set<nat>, i: nat)
    requires SeenTo(cs, seen, i, 256)
    ensures SeenTo(cs, seen, i + 1, 0)
  {
  }

  lemma {:induction false} SeenAll(cs: seq<nat>, seen: set<nat>, used: set<nat>)
    requires SeenTo(cs, seen, MAX_CLEN + 1, 0) && AllWithin(cs) && forall s :: s in used <==> 0 <= s < 256 && cs[s] > 0
    ensures seen == used
  {
    forall s | s in used ensures s in seen {
      assert cs[s] <= MAX_CLEN;
    }
  }

  /** The first n entries list exactly the symbols of u, each once. */
  ghost predicate Lists(vals: seq<nat>, n: nat, u: set<nat>) {
    && n <= |vals| == 256 && (forall q :: 0 <= q < 256 ==> vals[q] < 256)
    && (forall s: nat :: s in u <==> s in vals[..n])
    && (forall i, j :: 0 <= i < j < n ==> vals[i] != vals[j])
  }

  lemma {:induction false} Smaller(u: set<nat>, v: set<nat>)
    requires u <= v
    ensures |u| <= |v|
  {
    if u != v {
      assert v == u + (v - u);
    }
  }

  lemma {:induction false} ListMore(vals: seq<nat>, n: nat, u: set<nat>, j: nat)
    requires Lists(vals, n, u) && n < 256 && j < 256 && j !in u
    ensures Lists(vals[n := j], n + 1, u + {j})
  {
    var v := vals[n := j];
    assert v[..n + 1] == vals[..n] + [j];
    forall i | 0 <= i < n ensures vals[i] != j {
      assert vals[i] in vals[..n];
    }
  }

  // ----- the whole table -----

  lemma {:induction false} SameSums(bits: seq<nat>, l: nat)
    requires |bits| == MAX_CLEN + 1 && l <= 16
    ensures Start(bits[..17], l + 1) == CountUpTo(bits, l)
    ensures Kraft(bits[..17], l) * 65536 == KraftUpTo(bits, l)
  {
    if l > 0 {
      SameSums(bits, l - 1);
      Pow2Add(16 - l, 16);
      Pow2Sixteen();
      hide Pow2;
      Regrouped(Kraft(bits[..17], l - 1), bits[l], Pow2(16 - l));
    }
  }

  lemma {:induction false} Regrouped(k: nat, b: nat, u: nat)
    ensures (k + b * u) * 65536 == k * 65536 + b * (u * 65536)
  {
  }

  /** What the encoder will see of the limited counts. */
  lemma {:induction false} LimitedTable(bits: seq<nat>, longest: nat)
    requires |bits| == MAX_CLEN + 1 && longest <= 16 && NoneBeyond(bits, longest)
    requires Kraft32(bits) + Pow2(32 - longest) == Pow2(32)
    ensures Total(bits[..17]) == Count(bits) && Kraft(bits[..17], 16) < Pow2(16)
  {
    hide Pow2, KraftUpTo, CountUpTo, Start, Kraft;
    StopsAt16(bits, longest);
    KraftStops(bits, 16, MAX_CLEN);
    SameSums(bits, 16);
    Pow2Sixteen();
    Pow2Add(16, 16);
  }

  lemma {:induction false} StopsAt16(bits: seq<nat>, longest: nat)
    requires |bits| == MAX_CLEN + 1 && longest <= 16 && NoneBeyond(bits, longest)
    ensures NoneBeyond(bits, 16)
  {
  }

  function Used(freq: seq<nat>): set<nat>
  {
    set s: nat | s < 256 && s < |freq| && freq[s] > 0
  }

  /** The table lists each used symbol once, has a Kraft sum below 1 and no code above 16 bits. */
  ghost predicate Serves(t: HuffTbl, used: set<nat>) {
    && Shape(t) && Total(t.bits) == |used| <= 254 && Kraft(t.bits, 16) < Pow2(16) && Distinct(t, |used|)
    && forall s: nat :: s in used <==> s in t.huffval[..|used|]
  }

  /** How many symbols have each code size. */
  ghost function SizeCounts(cs: seq<nat>): (bits: seq<nat>)
    requires |cs| == SYMBOLS
    ensures |bits| == MAX_CLEN + 1
  {
    seq(MAX_CLEN + 1, l requires 0 <= l <= MAX_CLEN => if l == 0 then 0 else |OfSize(cs, SYMBOLS, l)|)
  }

  /** The counts of the table: limited to 16 bits, without one of the longest codes. */
  ghost function TableBits(cs: seq<nat>): (bits: seq<nat>)
    requires |cs| == SYMBOLS
    ensures |bits| == 17
  {
    var b := Limited(SizeCounts(cs), MAX_CLEN);
    var l := LastUsed(b, 16);
    if b[l] > 0 then b[l := b[l] - 1][..17] else b[..17]
  }

  lemma {:induction false} CountsAre(cs: seq<nat>, bits0: seq<nat>, bits: seq<nat>, longest: nat)
    requires |cs| == SYMBOLS && |bits0| == MAX_CLEN + 1 && bits0[0] == 0 && SizesCounted(cs, SYMBOLS, bits0)
    requires var b := Limited(bits0, MAX_CLEN);
      longest == LastUsed(b, 16) && b[longest] > 0 && bits == b[longest := b[longest] - 1]
    ensures bits[..17] == TableBits(cs)
  {
    hide OfSize, Limited, LastUsed;
    assert bits0 == SizeCounts(cs);
  }

  /** The first n symbols come in order of the code sizes cs, ascending where these are equal, and have these as their code
      lengths unless some code had to be limited; the counts are those of the procedure. */
  ghost predicate Follows(t: HuffTbl, cs: seq<nat>, n: nat) {
    && |cs| == SYMBOLS && Shape(t) && n <= 256 && n <= Total(t.bits) && t.bits == TableBits(cs)
    && (forall p, q :: 0 <= p < q < n ==>
        cs[t.huffval[p]] <= cs[t.huffval[q]] && (cs[t.huffval[p]] == cs[t.huffval[q]] ==> t.huffval[p] < t.huffval[q]))
    && ((forall s :: 0 <= s < SYMBOLS ==> cs[s] <= 16) ==> forall p :: 0 <= p < n ==> LengthAt(t.bits, p) == cs[t.huffval[p]])
  }

  /** A symbol of a smaller code size never has a longer code, limited or not. */
  lemma {:induction false} RareIsLonger(t: HuffTbl, cs: seq<nat>, n: nat, p: nat, q: nat)
    requires Follows(t, cs, n) && p < n && q < n && cs[t.huffval[p]] < cs[t.huffval[q]]
    ensures LengthAt(t.bits, p) <= LengthAt(t.bits, q)
  {
    hide LengthAt, Total, TableBits;
    if p <= q {
      LengthMono(t.bits, p, q);
    }
  }

  lemma {:induction false} ShorterMore(cs: seq<nat>, l: nat)
    requires |cs| == SYMBOLS && l > 0
    ensures |Shorter(cs, l + 1)| == |Shorter(cs, l)| + |OfSize(cs, 256, l)|
  {
    assert Shorter(cs, l + 1) == Shorter(cs, l) + OfSize(cs, 256, l);
    assert Shorter(cs, l) !! OfSize(cs, 256, l);
  }

  lemma {:induction false} NoneAbove(cs: seq<nat>, l: nat)
    requires |cs| == SYMBOLS && forall s :: 0 <= s < SYMBOLS ==> cs[s] <= cs[PSEUDO]
    ensures l > cs[PSEUDO] ==> |OfSize(cs, SYMBOLS, l)| == 0
  {
    if l > cs[PSEUDO] {
      assert OfSize(cs, SYMBOLS, l) == {};
    }
  }

  /** The counts with one of the longest codes removed are the counts without the pseudo-symbol. */
  lemma {:induction false} PseudoRemoved(cs: seq<nat>, bits: seq<nat>, longest: nat, l: nat)
    requires |cs| == SYMBOLS && SizesCounted(cs, SYMBOLS, bits) && 1 <= l <= MAX_CLEN && 1 <= longest <= MAX_CLEN
    requires NoneBeyond(bits, longest) && bits[longest] > 0 && 0 < cs[PSEUDO] <= MAX_CLEN
    requires forall s :: 0 <= s < SYMBOLS ==> cs[s] <= cs[PSEUDO]
    ensures longest == cs[PSEUDO] && bits[longest := bits[longest] - 1][l] == |OfSize(cs, 256, l)|
  {
    var m := cs[PSEUDO];
    assert PSEUDO in OfSize(cs, SYMBOLS, m);
    assert bits[m] == |OfSize(cs, SYMBOLS, m)| > 0;
    NoneAbove(cs, longest);
    SizeMore(cs, 256, l);
    hide OfSize;
  }

  /** As many places lie before length l as there are used symbols of a smaller code size. */
  lemma {:induction false} StartIsShorter(cs: seq<nat>, bits: seq<nat>, l: nat)
    requires |cs| == SYMBOLS && |bits| == 17 && 1 <= l <= 17
    requires forall m :: 1 <= m <= 16 ==> bits[m] == |OfSize(cs, 256, m)|
    ensures Start(bits, l) == |Shorter(cs, l)|
    decreases l
  {
    if l == 1 {
      assert Shorter(cs, 1) == {};
    } else {
      StartIsShorter(cs, bits, l - 1);
      ShorterMore(cs, l - 1);
      hide OfSize, Shorter;
    }
  }

  lemma {:induction false} PlaceLength(cs: seq<nat>, bits: seq<nat>, vals: seq<nat>, p: nat)
    requires Placed(cs, vals) && |bits| == 17 && p < |vals| && p < Total(bits) && 1 <= cs[vals[p]] <= 16
    requires forall m :: 1 <= m <= 16 ==> bits[m] == |OfSize(cs, 256, m)|
    ensures LengthAt(bits, p) == cs[vals[p]]
  {
    hide OfSize, Shorter;
    var l, n := cs[vals[p]], LengthAt(bits, p);
    StartIsShorter(cs, bits, l);
    StartIsShorter(cs, bits, l + 1);
    hide Start;
    if n < l {
      StartMono(bits, n + 1, l);
    } else if n > l {
      StartMono(bits, l + 1, n);
    }
  }

  /** From the listing and the limiting to the order of the table. */
  lemma {:induction false} TableFollows(t: HuffTbl, cs: seq<nat>, n: nat, bits0: seq<nat>, bits: seq<nat>, longest: nat)
    requires Shape(t) && n <= 256 && n == Total(t.bits) && Placed(cs, t.huffval[..n])
    requires |bits| == |bits0| == MAX_CLEN + 1 && t.bits == bits[..17] && SizesCounted(cs, SYMBOLS, bits0)
    requires forall p :: 0 <= p < n ==> cs[t.huffval[p]] > 0
    requires 0 < cs[PSEUDO] <= MAX_CLEN && forall s :: 0 <= s < SYMBOLS ==> cs[s] <= cs[PSEUDO]
    requires 1 <= longest <= 16 && t.bits == TableBits(cs)
    requires NoneBeyond(bits0, 16) ==> bits0[longest] > 0 && NoneBeyond(bits0, longest) && bits == bits0[longest := bits0[longest] - 1]
    ensures Follows(t, cs, n)
  {
    hide OfSize, Shorter, LengthAt, Total, TableBits;
    var vals := t.huffval[..n];
    forall p, q | 0 <= p < q < n
      ensures cs[t.huffval[p]] <= cs[t.huffval[q]] && (cs[t.huffval[p]] == cs[t.huffval[q]] ==> t.huffval[p] < t.huffval[q])
    {
      PlacedSorted(cs, vals, p, q);
      assert vals[p] == t.huffval[p] && vals[q] == t.huffval[q];
    }
    if forall s :: 0 <= s < SYMBOLS ==> cs[s] <= 16 {
      NoneLong(cs, bits0);
      forall m | 1 <= m <= 16 ensures t.bits[m] == |OfSize(cs, 256, m)| {
        PseudoRemoved(cs, bits0, longest, m);
      }
      forall p | 0 <= p < n ensures LengthAt(t.bits, p) == cs[t.huffval[p]] {
        assert vals[p] == t.huffval[p];
        PlaceLength(cs, t.bits, vals, p);
      }
    }
  }

  lemma {:induction false} NoneLong(cs: seq<nat>, bits: seq<nat>)
    requires |cs| == SYMBOLS && SizesCounted(cs, SYMBOLS, bits) && forall s :: 0 <= s < SYMBOLS ==> cs[s] <= 16
    ensures NoneBeyond(bits, 16)
  {
    forall l | 16 < l <= MAX_CLEN ensures bits[l] == 0 {
      assert OfSize(cs, SYMBOLS, l) == {};
    }
  }

  /** jpeg_gen_optimal_table, for 1 to 254 used symbols.  The code sizes are those of a tree of
      least cost; a code size above 32 is the only error; otherwise the table serves, its symbols
      in order of these code sizes, which are its code lengths if none exceeds 16. */
  method GenOptimalTable(freq: array<nat>) returns (ok: bool, t: HuffTbl, ghost tree: Tree, ghost cs: seq<nat>)
    requires freq.Length == SYMBOLS && Sum(freq[..][PSEUDO := 1]) <= 1_000_000_000 && 1 <= |Used(freq[..])| <= 254
    modifies freq
    ensures |cs| == SYMBOLS && LeastCost(old(freq[..])[PSEUDO := 1], cs, tree)
    ensures ok <==> AllWithin(cs)
    ensures ok ==> Serves(t, Used(old(freq[..]))) && Follows(t, cs, |Used(old(freq[..]))|)
  {
    hide Kraft32, Count, Pow2, LeastCost, Sum, Kraft, Start, AllWithin, SizesCounted, NoneBeyond, Placed, Follows, Limited, LastUsed, TableBits;
    ghost var w, used := freq[..][PSEUDO := 1], Used(freq[..]);
    t := HuffTbl([], []);
    var codesize;
    codesize, tree := MergeLoop(freq);
    cs := codesize[..];
    TreeFacts(w, cs, tree, used);
    var bits;
    ok, bits := CountLengths(codesize, Support(w));
    if !ok {
      return;
    }
    FullKraft(w, cs, tree);
    UsedSizes(w, used);
    ghost var bits0 := bits[..];
    var longest := Limit(bits);
    LimitedTable(bits[..], longest);
    ghost var p;
    var huffval;
    huffval, p := ListSymbols(codesize, used);
    t := HuffTbl(bits[..17], huffval[..]);
    assert t.huffval[..p] == huffval[..p];
    ListedUsed(cs, t.huffval, p, used);
    PseudoSize(cs);
    CountsAre(cs, bits0, bits[..], longest);
    TableFollows(t, cs, p, bits0, bits[..], longest);
  }

  lemma {:induction false} ListedUsed(cs: seq<nat>, vals: seq<nat>, n: nat, used: set<nat>)
    requires |cs| == SYMBOLS && Lists(vals, n, used) && forall s :: s in used <==> 0 <= s < 256 && cs[s] > 0
    ensures forall p :: 0 <= p < n ==> cs[vals[p]] > 0
  {
    forall p | 0 <= p < n ensures cs[vals[p]] > 0 {
      assert vals[p] in vals[..n];
    }
  }

  lemma {:induction false} PseudoSize(cs: seq<nat>)
    requires |cs| == SYMBOLS && AllWithin(cs)
    ensures cs[PSEUDO] <= MAX_CLEN
  {
  }

  lemma {:induction false} UsedSizes(w: seq<nat>, used: set<nat>)
    requires |w| == SYMBOLS && w[PSEUDO] == 1 && used == Used(w)
    ensures NumberIn(Support(w), SYMBOLS) == |used| + 1
  {
    NumberIsSize(Support(w), SYMBOLS);
    assert Support(w) == used + {PSEUDO};
  }

  /** Exactly the used symbols and the pseudo-symbol have a code size. */
  lemma {:induction false} TreeFacts(w: seq<nat>, cs: seq<nat>, t: Tree, used: set<nat>)
    requires |w| == |cs| == SYMBOLS && LeastCost(w, cs, t) && w[PSEUDO] == 1 && used == Used(w) && |used| >= 1
    requires forall s :: 0 <= s < SYMBOLS && w[s] == 0 ==> cs[s] == 0
    ensures forall s :: 0 <= s < SYMBOLS ==> (cs[s] > 0 <==> s in Support(w))
    ensures (forall s :: s in used <==> 0 <= s < 256 && cs[s] > 0) && cs[PSEUDO] > 0
  {
    var x :| x in used;
    assert x in Leaves(t) && PSEUDO in Leaves(t) && x != PSEUDO;
    assert t.Node?;
    forall s | 0 <= s < SYMBOLS && w[s] > 0 ensures cs[s] > 0 {
      assert s in Leaves(t);
    }
  }

  lemma {:induction false} FullKraft(w: seq<nat>, cs: seq<nat>, t: Tree)
    requires |w| == |cs| == SYMBOLS && LeastCost(w, cs, t) && AllWithin(cs)
    ensures KraftIn(cs, Support(w), SYMBOLS) == Pow2(32)
  {
    var s := HeightReached(t);
    assert cs[s] == Depth(t, s);
    TreeKraft(t, cs, 0);
    hide LowerBound, Pow2, KraftIn;
  }

  /** The encoder accepts every such table; for a DC table the symbols must be at most 15,
      as the DC symbols of the coders are. */
  lemma {:induction false} ServesIsLegal(t: HuffTbl, used: set<nat>, isDC: bool)
    requires Serves(t, used)
    ensures Legal(t, isDC) <==> forall s :: s in used ==> s <= if isDC then 15 else 255
  {
    hide Kraft, Total;
    var n := |used|;
    forall p | 0 <= p < n ensures t.huffval[p] in used {
      assert t.huffval[p] in t.huffval[..n];
    }
    forall s | s in used && SymbolsUpTo(t, isDC, n) ensures s <= if isDC then 15 else 255 {
      var p :| 0 <= p < n && t.huffval[..n][p] == s;
    }
  }

  /** No code is missing: every used symbol has one. */
  lemma {:induction false} UsedHaveCodes(t: HuffTbl, used: set<nat>, co: seq<nat>, si: seq<nat>, s: nat)
    requires Serves(t, used) && Encodes(t, Total(t.bits), co, si) && s in used
    ensures s < 256 && |si| == |co| == 256 && si[s] != 0
  {
    hide Kraft, LengthAt, CodeAt;
    var n := |used|;
    assert s in t.huffval[..n];
    var p :| 0 <= p < n && t.huffval[..n][p] == s;
    assert t.huffval[p] == s;
    LengthPositive(t.bits, p);
  }

  lemma {:induction false} LengthPositive(bits: seq<nat>, p: nat)
    requires |bits| == 17 && p < Total(bits)
    ensures LengthAt(bits, p) >= 1
  {
  }
}
