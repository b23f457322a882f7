// The merge loop of jpeg_gen_optimal_table (section K.2 of ITU-T T.81): a forest kept as
// chains in an array, whose code sizes turn out to be depths in one least-cost tree.
module CodeSizes {
  import opened HuffmanTree

  const SYMBOLS: nat := 257
  const PSEUDO: nat := 256
  const LIMIT: nat := 1_000_000_000

  // ----- sums over the symbols -----

  function Sum(w: seq<nat>): nat {
    if w == [] then 0 else Sum(w[..|w| - 1]) + w[|w| - 1]
  }

  lemma {:induction false} SumUpdate(w: seq<nat>, i: nat, v: nat)
    requires i < |w|
    ensures Sum(w[i := v]) + w[i] == Sum(w) + v
  {
    var n := |w| - 1;
    if i == n {
      assert w[i := v][..n] == w[..n];
    } else {
      assert w[i := v][..n] == w[..n][i := v];
      SumUpdate(w[..n], i, v);
    }
  }

  lemma {:induction false} SumAtLeast(w: seq<nat>, i: nat)
    requires i < |w|
    ensures w[i] <= Sum(w)
  {
    if i < |w| - 1 {
      SumAtLeast(w[..|w| - 1], i);
    }
  }

  /** Count times code size, summed over the symbols of u below n. */
  function LengthIn(w: seq<nat>, cs: seq<nat>, u: set<nat>, n: nat): nat
    requires |w| == |cs| && n <= |w|
  {
    if n == 0 then 0
    else LengthIn(w, cs, u, n - 1) + if n - 1 in u then w[n - 1] * cs[n - 1] else 0
  }

  /** The length of the coded data: count times code size, over all symbols. */
  function TotalLength(w: seq<nat>, cs: seq<nat>): nat {
    if |w| == |cs| then LengthIn(w, cs, Support(w), |w|) else 0
  }

  lemma {:induction false} LengthUnion(w: seq<nat>, cs: seq<nat>, u: set<nat>, v: set<nat>, n: nat)
    requires |w| == |cs| && n <= |w| && u !! v
    ensures LengthIn(w, cs, u + v, n) == LengthIn(w, cs, u, n) + LengthIn(w, cs, v, n)
    decreases n
  {
    if n > 0 {
      LengthUnion(w, cs, u, v, n - 1);
    }
  }

  lemma {:induction false} LengthOne(w: seq<nat>, cs: seq<nat>, s: nat, n: nat)
    requires |w| == |cs| && n <= |w|
    ensures LengthIn(w, cs, {s}, n) == if s < n then w[s] * cs[s] else 0
    decreases n
  {
    if n > 0 {
      LengthOne(w, cs, s, n - 1);
    }
  }

  lemma {:induction false} LengthBump(w: seq<nat>, cs: seq<nat>, u: set<nat>, s: nat, n: nat)
    requires |w| == |cs| && n <= |w| && s < |w| && s in u
    ensures LengthIn(w, cs[s := cs[s] + 1], u, n) == LengthIn(w, cs, u, n) + if s < n then w[s] else 0
    decreases n
  {
    if n > 0 {
      LengthBump(w, cs, u, s, n - 1);
    }
  }

  ghost predicate IsDepth(t: Tree, cs: seq<nat>, k: nat) {
    forall s :: s in Leaves(t) ==> s < |cs| && cs[s] == Depth(t, s) + k
  }

  lemma {:induction false} ChildDepths(t: Tree, cs: seq<nat>, k: nat)
    requires t.Node? && Proper(t) && IsDepth(t, cs, k)
    ensures Proper(t.left) && Proper(t.right) && Leaves(t.left) !! Leaves(t.right)
    ensures IsDepth(t.left, cs, k + 1) && IsDepth(t.right, cs, k + 1)
  {
    forall s | s in Leaves(t.left) ensures s < |cs| && cs[s] == Depth(t.left, s) + (k + 1) {
      assert s in Leaves(t);
    }
    forall s | s in Leaves(t.right) ensures s < |cs| && cs[s] == Depth(t.right, s) + (k + 1) {
      assert s in Leaves(t) && s !in Leaves(t.left);
    }
  }

  /** The cost of a tree is the sum of count times depth. */
  lemma {:induction false} CostIsLength(t: Tree, w: seq<nat>, cs: seq<nat>, k: nat)
    requires Proper(t) && Counted(t, w) && |w| == |cs| && IsDepth(t, cs, k)
    ensures LengthIn(w, cs, Leaves(t), |w|) == Cost(t, w) + k * Weight(t, w)
  {
    if t.Leaf? {
      LengthOne(w, cs, t.sym, |w|);
      assert t.sym in Leaves(t);
    } else {
      ChildDepths(t, cs, k);
      hide IsDepth, LengthIn, Proper;
      CostIsLength(t.left, w, cs, k + 1);
      CostIsLength(t.right, w, cs, k + 1);
      LengthUnion(w, cs, Leaves(t.left), Leaves(t.right), |w|);
      OneMoreLevel(k, Weight(t.left, w), Weight(t.right, w));
    }
  }

  lemma {:induction false} OneMoreLevel(k: nat, a: nat, b: nat)
    ensures (k + 1) * a + (k + 1) * b == a + b + k * (a + b)
  {
  }

  // ----- chains -----

  /** The symbols linked from r on, in order. */
  ghost predicate Chain(others: seq<int>, c: seq<nat>, r: nat) {
    && c != [] && c[0] == r
    && (forall i :: 0 <= i < |c| ==> c[i] < |others|)
    && (forall i :: 0 <= i < |c| - 1 ==> others[c[i]] == c[i + 1])
    && others[c[|c| - 1]] == -1
    && (forall i, j :: 0 <= i < j < |c| ==> c[i] != c[j])
  }

  lemma {:induction false} ChainStep(others: seq<int>, c: seq<nat>, r: nat, i: nat)
    requires Chain(others, c, r) && i < |c|
    ensures c[i] < |others| && (others[c[i]] >= 0 <==> i < |c| - 1)
    ensures i < |c| - 1 ==> others[c[i]] == c[i + 1] < |others|
  {
    if i < |c| - 1 {
      assert c[i + 1] < |others|;
    }
  }

  function ChainWeight(c: seq<nat>, w: seq<nat>): nat
    requires forall i :: 0 <= i < |c| ==> c[i] < |w|
  {
    if c == [] then 0 else ChainWeight(c[..|c| - 1], w) + w[c[|c| - 1]]
  }

  lemma {:induction false} ChainWeightConcat(a: seq<nat>, b: seq<nat>, w: seq<nat>)
    requires (forall i :: 0 <= i < |a| ==> a[i] < |w|) && (forall i :: 0 <= i < |b| ==> b[i] < |w|)
    ensures ChainWeight(a + b, w) == ChainWeight(a, w) + ChainWeight(b, w)
  {
    if b == [] {
      assert a + b == a;
    } else {
      assert (a + b)[..|a + b| - 1] == a + b[..|b| - 1];
      ChainWeightConcat(a, b[..|b| - 1], w);
    }
  }

  /** Adding one to the code size of everything in a branch. */
  function Bumped(cs: seq<nat>, c: seq<nat>): (b: seq<nat>)
    ensures |b| == |cs|
  {
    seq(|cs|, s requires 0 <= s < |cs| => if s in c then cs[s] + 1 else cs[s])
  }

  lemma {:induction false} BumpLength(w: seq<nat>, cs: seq<nat>, c: seq<nat>, u: set<nat>)
    requires |w| == |cs| && (forall i :: 0 <= i < |c| ==> c[i] < |w| && c[i] in u)
    requires forall i, j :: 0 <= i < j < |c| ==> c[i] != c[j]
    ensures LengthIn(w, Bumped(cs, c), u, |w|) == LengthIn(w, cs, u, |w|) + ChainWeight(c, w)
    decreases |c|
  {
    if c == [] {
      assert Bumped(cs, c) == cs;
    } else {
      var n := |c| - 1;
      BumpLength(w, cs, c[..n], u);
      assert c == c[..n] + [c[n]];
      var b := Bumped(cs, c[..n]);
      assert Bumped(cs, c) == b[c[n] := b[c[n]] + 1];
      LengthBump(w, b, u, c[n], |w|);
    }
  }

  /** The two inner loops: code sizes go up along a branch, whose last symbol is returned. */
  method BumpBranch(codesize: array<nat>, others: array<int>, c0: nat, ghost chain: seq<nat>) returns (last: nat)
    requires codesize.Length == others.Length && Chain(others[..], chain, c0)
    modifies codesize
    ensures last == chain[|chain| - 1]
    ensures codesize[..] == Bumped(old(codesize[..]), chain)
  {
    last := c0;
    codesize[last] := codesize[last] + 1;
    ghost var i := 0;
    while others[last] >= 0
      invariant 0 <= i < |chain| && last == chain[i] && others[..] == old(others[..])
      invariant forall s :: 0 <= s < codesize.Length ==>
        codesize[s] == old(codesize[s]) + if s in chain[..i + 1] then 1 else 0
      decreases |chain| - i
    {
      ChainStep(others[..], chain, c0, i);
      last := others[last];
      codesize[last] := codesize[last] + 1;
      assert chain[..i + 2] == chain[..i + 1] + [last];
      i := i + 1;
    }
    ChainStep(others[..], chain, c0, i);
    assert chain[..i + 1] == chain;
  }

  /** The symbol of least nonzero count other than `skip`; of several, the largest. */
  method FindLeast(freq: array<nat>, skip: int) returns (c: int)
    requires freq.Length == SYMBOLS && forall i :: 0 <= i < SYMBOLS ==> freq[i] <= LIMIT
    ensures -1 <= c < SYMBOLS && (c == -1 <==> forall i :: 0 <= i < SYMBOLS && i != skip ==> freq[i] == 0)
    ensures c >= 0 ==> c != skip && freq[c] > 0
    ensures c >= 0 ==> forall i :: 0 <= i < SYMBOLS && i != skip && freq[i] > 0 ==>
      freq[c] <= freq[i] && (freq[c] == freq[i] ==> i <= c)
  {
    c := -1;
    var v := LIMIT;
    var i := 0;
    while i <= 256
      invariant 0 <= i <= SYMBOLS && -1 <= c < i && v <= LIMIT
      invariant c == -1 ==> v == LIMIT && forall j :: 0 <= j < i && j != skip ==> freq[j] == 0
      invariant c >= 0 ==> c != skip && freq[c] == v > 0
      invariant c >= 0 ==> forall j :: 0 <= j < i && j != skip && freq[j] > 0 ==> v <= freq[j] && (v == freq[j] ==> j <= c)
    {
      if freq[i] != 0 && freq[i] <= v && i != skip {
        v := freq[i];
        c := i;
      }
      i := i + 1;
    }
  }

  // ----- the forest -----

  /** For each root symbol its tree, and its symbols in chain order. */
  datatype Forest = Forest(trees: seq<Tree>, chains: seq<seq<nat>>)

  ghost predicate Sizes(w: seq<nat>, freq: seq<nat>, cs: seq<nat>, others: seq<int>, f: Forest) {
    |w| == |freq| == |cs| == |others| == |f.trees| == |f.chains| == SYMBOLS
  }

  ghost predicate RootOk(w: seq<nat>, freq: seq<nat>, cs: seq<nat>, others: seq<int>, f: Forest, r: nat)
    requires Sizes(w, freq, cs, others, f) && r < SYMBOLS
  {
    && Proper(f.trees[r]) && Counted(f.trees[r], w) && Chain(others, f.chains[r], r)
    && (forall s: nat :: s in Leaves(f.trees[r]) <==> s in f.chains[r])
    && ChainWeight(f.chains[r], w) == freq[r] && IsDepth(f.trees[r], cs, 0)
  }

  ghost predicate ForestOk(w: seq<nat>, freq: seq<nat>, cs: seq<nat>, others: seq<int>, f: Forest) {
    && Sizes(w, freq, cs, others, f)
    && (forall r :: 0 <= r < SYMBOLS && freq[r] > 0 ==> RootOk(w, freq, cs, others, f, r))
    && (forall r, q :: 0 <= r < SYMBOLS && 0 <= q < SYMBOLS && r != q && freq[r] > 0 && freq[q] > 0 ==>
          Leaves(f.trees[r]) !! Leaves(f.trees[q]))
    && (forall s :: 0 <= s < SYMBOLS && w[s] > 0 ==> Planted(freq, f, s))
    && (forall r :: 0 <= r < SYMBOLS && freq[r] > 0 ==> Leaves(f.trees[r]) <= Support(w))
    && (forall s :: 0 <= s < SYMBOLS && w[s] == 0 ==> cs[s] == 0)
  }

  /** s is in the tree of some root. */
  ghost predicate Planted(freq: seq<nat>, f: Forest, s: nat)
    requires |f.trees| == |freq|
  {
    exists r :: 0 <= r < |freq| && freq[r] > 0 && s in Leaves(f.trees[r])
  }

  function Join(f: Forest, c1: nat, c2: nat): Forest
    requires c1 < |f.trees| == |f.chains| && c2 < |f.trees|
  {
    Forest(f.trees[c1 := Node(f.trees[c1], f.trees[c2])], f.chains[c1 := f.chains[c1] + f.chains[c2]])
  }

  lemma {:induction false} ChainJoin(others: seq<int>, a: seq<nat>, b: seq<nat>, c1: nat, c2: nat)
    requires Chain(others, a, c1) && Chain(others, b, c2) && forall s: nat :: !(s in a && s in b)
    ensures Chain(others[a[|a| - 1] := c2], a + b, c1)
  {
    var o, c := others[a[|a| - 1] := c2], a + b;
    forall i | 0 <= i < |c| - 1 ensures o[c[i]] == c[i + 1] {
      if i < |a| - 1 {
        assert others[a[i]] == a[i + 1];
      } else if i >= |a| {
        assert b[i - |a|] in b && a[|a| - 1] in a;
        assert others[b[i - |a|]] == b[i - |a| + 1];
      }
    }
    assert b[|b| - 1] in b && a[|a| - 1] in a;
    forall i, j | 0 <= i < j < |c| ensures c[i] != c[j] {
      if i < |a| <= j {
        assert a[i] in a && b[j - |a|] in b;
      }
    }
  }

  lemma {:induction false} ChainKept(others: seq<int>, c: seq<nat>, r: nat, x: nat, v: int)
    requires Chain(others, c, r) && x < |others| && x !in c
    ensures Chain(others[x := v], c, r)
  {
    forall i | 0 <= i < |c| ensures c[i] != x {
      assert c[i] in c;
    }
  }

  lemma {:induction false} BumpDepth(t1: Tree, t2: Tree, cs: seq<nat>, a: seq<nat>, b: seq<nat>)
    requires Proper(Node(t1, t2)) && IsDepth(t1, cs, 0) && IsDepth(t2, cs, 0)
    requires (forall s: nat :: s in Leaves(t1) <==> s in a) && (forall s: nat :: s in Leaves(t2) <==> s in b)
    ensures IsDepth(Node(t1, t2), Bumped(Bumped(cs, a), b), 0)
  {
  }

  lemma {:induction false} KeptDepth(t: Tree, cs: seq<nat>, a: seq<nat>)
    requires IsDepth(t, cs, 0) && forall s: nat :: s in Leaves(t) ==> s !in a
    ensures IsDepth(t, Bumped(cs, a), 0)
  {
  }

  /** The root c1 after taking over the tree of c2. */
  lemma {:induction false} JoinedRoot(w: seq<nat>, freq: seq<nat>, cs: seq<nat>, others: seq<int>, f: Forest, c1: nat, c2: nat)
    requires Sizes(w, freq, cs, others, f) && c1 < SYMBOLS && c2 < SYMBOLS && c1 != c2
    requires RootOk(w, freq, cs, others, f, c1) && RootOk(w, freq, cs, others, f, c2) && Leaves(f.trees[c1]) !! Leaves(f.trees[c2])
    ensures var a, b := f.chains[c1], f.chains[c2];
      && a != [] && a[|a| - 1] < SYMBOLS
      && RootOk(w, Merged(freq, c1, c2), Bumped(Bumped(cs, a), b), others[a[|a| - 1] := c2], Join(f, c1, c2), c1)
  {
    var a, b := f.chains[c1], f.chains[c2];
    ChainJoin(others, a, b, c1, c2);
    ChainWeightConcat(a, b, w);
    BumpDepth(f.trees[c1], f.trees[c2], cs, a, b);
    hide Chain, IsDepth, Bumped, ChainWeight;
  }

  /** Any other root is not touched by the merge. */
  lemma {:induction false} KeptRoot(w: seq<nat>, freq: seq<nat>, cs: seq<nat>, others: seq<int>, f: Forest, c1: nat, c2: nat, r: nat)
    requires Sizes(w, freq, cs, others, f) && c1 < SYMBOLS && c2 < SYMBOLS && r < SYMBOLS && r != c1 && r != c2
    requires RootOk(w, freq, cs, others, f, c1) && RootOk(w, freq, cs, others, f, c2) && RootOk(w, freq, cs, others, f, r)
    requires Leaves(f.trees[r]) !! Leaves(f.trees[c1]) && Leaves(f.trees[r]) !! Leaves(f.trees[c2])
    ensures var a, b := f.chains[c1], f.chains[c2];
      && a != [] && a[|a| - 1] < SYMBOLS
      && RootOk(w, Merged(freq, c1, c2), Bumped(Bumped(cs, a), b), others[a[|a| - 1] := c2], Join(f, c1, c2), r)
  {
    var a, b := f.chains[c1], f.chains[c2];
    assert a[|a| - 1] in a;
    ChainKept(others, f.chains[r], r, a[|a| - 1], c2);
    KeptDepth(f.trees[r], cs, a);
    KeptDepth(f.trees[r], Bumped(cs, a), b);
    hide Chain, IsDepth, Bumped, ChainWeight;
  }

  /** A merge keeps the forest in order. */
  lemma {:induction false} MergeKeeps(w: seq<nat>, freq: seq<nat>, cs: seq<nat>, others: seq<int>, f: Forest, c1: nat, c2: nat)
    requires ForestOk(w, freq, cs, others, f) && c1 < SYMBOLS && c2 < SYMBOLS && c1 != c2 && freq[c1] > 0 && freq[c2] > 0
    ensures var a, b := f.chains[c1], f.chains[c2];
      && a != [] && a[|a| - 1] < SYMBOLS
      && ForestOk(w, Merged(freq, c1, c2), Bumped(Bumped(cs, a), b), others[a[|a| - 1] := c2], Join(f, c1, c2))
  {
    hide RootOk, Planted, Bumped, Support;
    var a, b := f.chains[c1], f.chains[c2];
    JoinedRoot(w, freq, cs, others, f, c1, c2);
    var freq1, cs1, others1, f1 := Merged(freq, c1, c2), Bumped(Bumped(cs, a), b), others[a[|a| - 1] := c2], Join(f, c1, c2);
    forall r | 0 <= r < SYMBOLS && freq1[r] > 0 ensures RootOk(w, freq1, cs1, others1, f1, r) {
      if r != c1 {
        KeptRoot(w, freq, cs, others, f, c1, c2, r);
      }
    }
    forall s | 0 <= s < SYMBOLS && w[s] > 0 ensures Planted(freq1, f1, s) {
      PlantedAgain(freq, f, c1, c2, s);
    }
    forall s | 0 <= s < SYMBOLS && w[s] == 0 ensures cs1[s] == 0 {
      Unbumped(w, freq, cs, others, f, c1, c2, s);
    }
  }

  lemma {:induction false} PlantedAgain(freq: seq<nat>, f: Forest, c1: nat, c2: nat, s: nat)
    requires |freq| == |f.trees| == |f.chains| && c1 < |freq| && c2 < |freq| && c1 != c2 && freq[c1] > 0 && Planted(freq, f, s)
    ensures Planted(Merged(freq, c1, c2), Join(f, c1, c2), s)
  {
    var r :| 0 <= r < |freq| && freq[r] > 0 && s in Leaves(f.trees[r]);
    var f1 := Join(f, c1, c2);
    if r == c2 {
      assert s in Leaves(f1.trees[c1]);
    } else {
      assert s in Leaves(f1.trees[r]);
    }
  }

  lemma {:induction false} Unbumped(w: seq<nat>, freq: seq<nat>, cs: seq<nat>, others: seq<int>, f: Forest, c1: nat, c2: nat, s: nat)
    requires ForestOk(w, freq, cs, others, f) && c1 < SYMBOLS && c2 < SYMBOLS && freq[c1] > 0 && freq[c2] > 0
    requires s < SYMBOLS && w[s] == 0
    ensures Bumped(Bumped(cs, f.chains[c1]), f.chains[c2])[s] == 0
  {
    assert RootOk(w, freq, cs, others, f, c1) && RootOk(w, freq, cs, others, f, c2);
    assert s !in Support(w);
    hide Chain, IsDepth, ChainWeight;
  }

  /** What a merge adds to the length of the coded data. */
  lemma {:induction false} MergeLength(w: seq<nat>, freq: seq<nat>, cs: seq<nat>, others: seq<int>, f: Forest, c1: nat, c2: nat)
    requires ForestOk(w, freq, cs, others, f) && c1 < SYMBOLS && c2 < SYMBOLS && freq[c1] > 0 && freq[c2] > 0
    ensures TotalLength(w, Bumped(Bumped(cs, f.chains[c1]), f.chains[c2])) == TotalLength(w, cs) + freq[c1] + freq[c2]
  {
    BranchLength(w, freq, cs, others, f, c1, cs);
    BranchLength(w, freq, cs, others, f, c2, Bumped(cs, f.chains[c1]));
    hide ForestOk, Bumped;
  }

  lemma {:induction false} BranchLength(w: seq<nat>, freq: seq<nat>, cs: seq<nat>, others: seq<int>, f: Forest, c: nat, cs1: seq<nat>)
    requires ForestOk(w, freq, cs, others, f) && c < SYMBOLS && freq[c] > 0 && |cs1| == |w|
    ensures TotalLength(w, Bumped(cs1, f.chains[c])) == TotalLength(w, cs1) + freq[c]
  {
    var a := f.chains[c];
    assert RootOk(w, freq, cs, others, f, c);
    forall i | 0 <= i < |a| ensures a[i] < |w| && a[i] in Support(w) {
      assert a[i] in a;
      assert a[i] in Leaves(f.trees[c]);
    }
    assert Chain(others, a, c);
    hide ForestOk, RootOk, Support, IsDepth;
    BumpLength(w, cs1, a, Support(w));
  }

  function Singles(): Forest {
    Forest(seq(SYMBOLS, s requires 0 <= s < SYMBOLS => Leaf(s)), seq(SYMBOLS, s requires 0 <= s < SYMBOLS => [s]))
  }

  /** Before the first merge every symbol is a tree of its own. */
  lemma {:induction false} StartForest(w: seq<nat>)
    requires |w| == SYMBOLS
    ensures ForestOk(w, w, seq(SYMBOLS, _ => 0), seq(SYMBOLS, _ => -1), Singles())
    ensures TotalLength(w, seq(SYMBOLS, _ => 0)) == 0
  {
    var cs, others, f := seq(SYMBOLS, _ => 0), seq(SYMBOLS, _ => -1), Singles();
    forall r | 0 <= r < SYMBOLS && w[r] > 0 ensures RootOk(w, w, cs, others, f, r) {
      assert f.chains[r][..0] == [];
      assert ChainWeight(f.chains[r], w) == ChainWeight([], w) + w[r];
    }
    forall s | 0 <= s < SYMBOLS && w[s] > 0 ensures Planted(w, f, s) {
      assert s in Leaves(f.trees[s]);
    }
    ZeroLength(w, cs, Support(w), SYMBOLS);
  }

  lemma {:induction false} ZeroLength(w: seq<nat>, cs: seq<nat>, u: set<nat>, n: nat)
    requires |w| == |cs| && n <= |w| && forall s :: 0 <= s < |cs| ==> cs[s] == 0
    ensures LengthIn(w, cs, u, n) == 0
    decreases n
  {
    if n > 0 {
      ZeroLength(w, cs, u, n - 1);
    }
  }

  ghost predicate LeastCost(w: seq<nat>, cs: seq<nat>, t: Tree)
    requires |w| == |cs|
  {
    CodeTree(t, w) && IsDepth(t, cs, 0) && LowerBound(w, TotalLength(w, cs))
  }

  /** Merging the two least keeps the bound: what remains to be paid, plus what was paid. */
  ghost predicate PaidSoFar(w: seq<nat>, freq: seq<nat>, paid: nat) {
    forall b: nat :: LowerBound(freq, b) ==> LowerBound(w, b + paid)
  }

  lemma {:induction false} PayMerge(w: seq<nat>, freq: seq<nat>, c1: nat, c2: nat, paid: nat)
    requires PaidSoFar(w, freq, paid) && TwoLeast(freq, c1, c2)
    ensures PaidSoFar(w, Merged(freq, c1, c2), paid + freq[c1] + freq[c2])
  {
    hide LowerBound, TwoLeast;
    LeastInRange(freq, c1, c2);
    forall b: nat | LowerBound(Merged(freq, c1, c2), b) ensures LowerBound(w, b + (paid + freq[c1] + freq[c2])) {
      MergeBound(freq, c1, c2, b);
      assert b + freq[c1] + freq[c2] + paid == b + (paid + freq[c1] + freq[c2]);
    }
  }

  lemma {:induction false} LeastInRange(w: seq<nat>, x: nat, y: nat)
    requires TwoLeast(w, x, y)
    ensures x < |w| && y < |w| && x != y && w[x] > 0 && w[y] > 0
  {
  }

  lemma {:induction false} LastTree(w: seq<nat>, freq: seq<nat>, cs: seq<nat>, others: seq<int>, f: Forest, c: nat)
    requires ForestOk(w, freq, cs, others, f) && c < SYMBOLS && freq[c] > 0
    requires forall i :: 0 <= i < SYMBOLS && i != c ==> freq[i] == 0
    requires PaidSoFar(w, freq, TotalLength(w, cs))
    ensures LeastCost(w, cs, f.trees[c])
  {
    assert RootOk(w, freq, cs, others, f, c);
    forall s | s in Support(w) ensures s in Leaves(f.trees[c]) {
      assert Planted(freq, f, s);
    }
    hide RootOk, Planted, LowerBound, Chain;
    SingleBound(freq);
    assert 0 + TotalLength(w, cs) == TotalLength(w, cs);
  }

  // ----- the pseudo-symbol ends up deepest -----

  /** The order in which FindLeast takes the roots: by count, then from the largest symbol down. */
  predicate Sooner(freq: seq<nat>, r: nat, q: nat)
    requires r < |freq| && q < |freq|
  {
    freq[r] < freq[q] || (freq[r] == freq[q] && r > q)
  }

  /** c1 and c2 are the next two to be taken. */
  ghost predicate NextTwo(freq: seq<nat>, c1: nat, c2: nat) {
    && c1 < |freq| && c2 < |freq| && c1 != c2 && freq[c1] > 0 && freq[c2] > 0 && Sooner(freq, c1, c2)
    && forall r :: 0 <= r < |freq| && freq[r] > 0 && r != c1 && r != c2 ==> Sooner(freq, c2, r)
  }

  /** Of the tree at r, seen from the tree at q that holds the pseudo-symbol. */
  ghost predicate Shallow(freq: seq<nat>, cs: seq<nat>, f: Forest, q: nat, r: nat)
    requires r < |freq| == |cs| == |f.trees| == SYMBOLS && q < SYMBOLS
  {
    && (forall s :: s in Leaves(f.trees[r]) ==> s < SYMBOLS && cs[s] <= cs[PSEUDO])
    && (r != q && Sooner(freq, r, q) ==> forall s :: s in Leaves(f.trees[r]) ==> s < SYMBOLS && cs[s] < cs[PSEUDO])
    && (r != q ==> 2 * freq[r] > freq[q] || (2 * freq[r] == freq[q] && r < q))
  }

  /** No symbol is deeper than the pseudo-symbol, and a tree that is taken before the pseudo-symbol's
      is less deep; no other tree is so light that two of them would come before it once joined. */
  ghost predicate Deepest(freq: seq<nat>, cs: seq<nat>, f: Forest, q: nat) {
    && |freq| == |cs| == |f.trees| == |f.chains| == SYMBOLS && q < SYMBOLS && freq[q] > 0 && PSEUDO in Leaves(f.trees[q])
    && forall r :: 0 <= r < SYMBOLS && freq[r] > 0 ==> Shallow(freq, cs, f, q, r)
  }

  lemma {:induction false} BumpedBoth(cs: seq<nat>, a: seq<nat>, b: seq<nat>, u: set<nat>, v: set<nat>, s: nat)
    requires s < |cs| && u !! v
    requires (forall x: nat :: x in u <==> x in a) && (forall x: nat :: x in v <==> x in b)
    ensures Bumped(Bumped(cs, a), b)[s] == cs[s] + if s in u || s in v then 1 else 0
  {
  }

  /** How a merge changes the code sizes, in terms of the trees. */
  ghost predicate Grown(cs: seq<nat>, cs1: seq<nat>, u: set<nat>) {
    |cs| == |cs1| == SYMBOLS && forall s :: 0 <= s < SYMBOLS ==> cs1[s] == cs[s] + if s in u then 1 else 0
  }

  lemma {:induction false} MergeGrows(w: seq<nat>, freq: seq<nat>, cs: seq<nat>, others: seq<int>, f: Forest, c1: nat, c2: nat)
    requires ForestOk(w, freq, cs, others, f) && c1 < SYMBOLS && c2 < SYMBOLS && c1 != c2 && freq[c1] > 0 && freq[c2] > 0
    ensures Grown(cs, Bumped(Bumped(cs, f.chains[c1]), f.chains[c2]), Leaves(f.trees[c1]) + Leaves(f.trees[c2]))
  {
    assert RootOk(w, freq, cs, others, f, c1) && RootOk(w, freq, cs, others, f, c2);
    hide Bumped, Chain, IsDepth, ChainWeight, Proper, Counted;
    forall s | 0 <= s < SYMBOLS
      ensures Bumped(Bumped(cs, f.chains[c1]), f.chains[c2])[s] == cs[s] + if s in Leaves(f.trees[c1]) + Leaves(f.trees[c2]) then 1 else 0
    {
      BumpedBoth(cs, f.chains[c1], f.chains[c2], Leaves(f.trees[c1]), Leaves(f.trees[c2]), s);
    }
  }

  ghost predicate Scattered(freq: seq<nat>, f: Forest)
    requires |f.trees| == |freq|
  {
    forall r, q :: 0 <= r < |freq| && 0 <= q < |freq| && r != q && freq[r] > 0 && freq[q] > 0 ==> Leaves(f.trees[r]) !! Leaves(f.trees[q])
  }

  /** A merge of two other trees: together they come after the pseudo-symbol's tree. */
  lemma {:induction false} OthersMerge(freq: seq<nat>, cs: seq<nat>, cs1: seq<nat>, f: Forest, c1: nat, c2: nat, q: nat)
    requires Deepest(freq, cs, f, q) && NextTwo(freq, c1, c2) && Scattered(freq, f) && q != c1 && q != c2
    requires Grown(cs, cs1, Leaves(f.trees[c1]) + Leaves(f.trees[c2]))
    ensures Deepest(Merged(freq, c1, c2), cs1, Join(f, c1, c2), q)
  {
    var freq1, f1 := Merged(freq, c1, c2), Join(f, c1, c2);
    assert Shallow(freq, cs, f, q, c1) && Shallow(freq, cs, f, q, c2);
    assert Sooner(freq, c2, q) && Sooner(freq, c1, q);
    assert !Sooner(freq1, c1, q);
    assert cs1[PSEUDO] == cs[PSEUDO];
    forall r | 0 <= r < SYMBOLS && freq1[r] > 0 ensures Shallow(freq1, cs1, f1, q, r) {
      assert Shallow(freq, cs, f, q, r);
      if r == c1 {
        assert Leaves(f1.trees[r]) == Leaves(f.trees[c1]) + Leaves(f.trees[c2]);
      } else {
        assert Leaves(f.trees[r]) !! Leaves(f.trees[c1]) && Leaves(f.trees[r]) !! Leaves(f.trees[c2]);
      }
    }
  }

  /** A merge that takes the pseudo-symbol's tree: it gets deeper than all that remain. */
  lemma {:induction false} PseudoMerge(freq: seq<nat>, cs: seq<nat>, cs1: seq<nat>, f: Forest, c1: nat, c2: nat, q: nat)
    requires Deepest(freq, cs, f, q) && NextTwo(freq, c1, c2) && Scattered(freq, f) && (q == c1 || q == c2)
    requires Grown(cs, cs1, Leaves(f.trees[c1]) + Leaves(f.trees[c2]))
    ensures Deepest(Merged(freq, c1, c2), cs1, Join(f, c1, c2), c1)
  {
    var freq1, f1 := Merged(freq, c1, c2), Join(f, c1, c2);
    assert Shallow(freq, cs, f, q, c1) && Shallow(freq, cs, f, q, c2);
    assert cs1[PSEUDO] == cs[PSEUDO] + 1;
    assert Leaves(f1.trees[c1]) == Leaves(f.trees[c1]) + Leaves(f.trees[c2]);
    forall r | 0 <= r < SYMBOLS && freq1[r] > 0 ensures Shallow(freq1, cs1, f1, c1, r) {
      assert Shallow(freq, cs, f, q, r);
      if r != c1 {
        assert Sooner(freq, c2, r);
        assert Leaves(f.trees[r]) !! Leaves(f.trees[c1]) && Leaves(f.trees[r]) !! Leaves(f.trees[c2]);
      }
    }
  }

  lemma {:induction false} DeepestKept(w: seq<nat>, freq: seq<nat>, cs: seq<nat>, others: seq<int>, f: Forest, c1: nat, c2: nat, q: nat)
    requires ForestOk(w, freq, cs, others, f) && Deepest(freq, cs, f, q) && NextTwo(freq, c1, c2)
    ensures Deepest(Merged(freq, c1, c2), Bumped(Bumped(cs, f.chains[c1]), f.chains[c2]), Join(f, c1, c2), if q == c2 then c1 else q)
  {
    ForestSizes(w, freq, cs, others, f);
    ForestScattered(w, freq, cs, others, f);
    MergeGrows(w, freq, cs, others, f, c1, c2);
    var cs1 := Bumped(Bumped(cs, f.chains[c1]), f.chains[c2]);
    hide ForestOk, Scattered, Grown, Shallow, NextTwo, Bumped, Sizes, Join;
    if q == c1 || q == c2 {
      PseudoMerge(freq, cs, cs1, f, c1, c2, q);
    } else {
      OthersMerge(freq, cs, cs1, f, c1, c2, q);
    }
  }

  lemma {:induction false} ForestScattered(w: seq<nat>, freq: seq<nat>, cs: seq<nat>, others: seq<int>, f: Forest)
    requires ForestOk(w, freq, cs, others, f)
    ensures |f.trees| == |freq| && Scattered(freq, f)
  {
  }

  /** At first the pseudo-symbol is a tree of its own, and comes before all others. */
  lemma {:induction false} DeepestAtFirst(w: seq<nat>)
    requires |w| == SYMBOLS && w[PSEUDO] == 1
    ensures Deepest(w, seq(SYMBOLS, _ => 0), Singles(), PSEUDO)
  {
  }

  /** In the last tree the pseudo-symbol is deepest of all. */
  lemma {:induction false} DeepestAtLast(w: seq<nat>, freq: seq<nat>, cs: seq<nat>, others: seq<int>, f: Forest, c: nat, q: nat)
    requires ForestOk(w, freq, cs, others, f) && Deepest(freq, cs, f, q) && c < SYMBOLS
    requires forall i :: 0 <= i < SYMBOLS && i != c ==> freq[i] == 0
    ensures forall s :: 0 <= s < SYMBOLS ==> cs[s] <= cs[PSEUDO]
  {
    forall s | 0 <= s < SYMBOLS ensures cs[s] <= cs[PSEUDO] {
      if w[s] > 0 {
        assert Planted(freq, f, s);
        assert Shallow(freq, cs, f, q, c);
      }
    }
  }

  /** The code sizes of the merge loop, and the tree they are the depths in; the pseudo-symbol has the
      greatest. */
  method MergeLoop(freq: array<nat>) returns (codesize: array<nat>, ghost t: Tree)
    requires freq.Length == SYMBOLS && Sum(freq[..][PSEUDO := 1]) <= 1_000_000_000
    modifies freq
    ensures codesize.Length == SYMBOLS && fresh(codesize)
    ensures var w := old(freq[..])[PSEUDO := 1];
      LeastCost(w, codesize[..], t) && forall s :: 0 <= s < SYMBOLS && w[s] == 0 ==> codesize[s] == 0
    ensures forall s :: 0 <= s < SYMBOLS ==> codesize[s] <= codesize[PSEUDO]
  {
    hide ForestOk, PaidSoFar, LeastCost, TotalLength, Sum, TwoLeast, Sizes, Deepest, NextTwo, Bumped, Merged, Join;
    freq[PSEUDO] := 1;
    ghost var w := freq[..];
    assert w == old(freq[..])[PSEUDO := 1];
    codesize := new nat[SYMBOLS](_ => 0);
    var others := new int[SYMBOLS](_ => -1);
    ghost var f := Singles();
    StartForest(w);
    assert codesize[..] == seq(SYMBOLS, _ => 0);
    assert others[..] == seq(SYMBOLS, _ => -1);
    NothingPaid(w);
    DeepestAtFirst(w);
    ghost var q: nat := PSEUDO;
    while true
      invariant Deepest(freq[..], codesize[..], f, q)
      invariant ForestOk(w, freq[..], codesize[..], others[..], f)
      invariant PaidSoFar(w, freq[..], TotalLength(w, codesize[..]))
      invariant Sum(freq[..]) <= LIMIT && exists i :: 0 <= i < SYMBOLS && freq[i] > 0
      decreases |Support(freq[..])|
    {
      AllBelowLimit(freq[..]);
      var c1 := FindLeast(freq, -1);
      var c2 := FindLeast(freq, c1);
      if c2 < 0 {
        LastTree(w, freq[..], codesize[..], others[..], f, c1);
        ForestSizes(w, freq[..], codesize[..], others[..], f);
        UncountedZero(w, freq[..], codesize[..], others[..], f);
        DeepestAtLast(w, freq[..], codesize[..], others[..], f, c1, q);
        t := f.trees[c1];
        return;
      }
      AreTwoLeast(freq[..], c1, c2);
      AreNextTwo(freq[..], c1, c2);
      DeepestKept(w, freq[..], codesize[..], others[..], f, c1, c2, q);
      q := if q == c2 then c1 else q;
      f := Merge(w, freq, codesize, others, f, c1, c2);
    }
  }

  lemma {:induction false} ForestSizes(w: seq<nat>, freq: seq<nat>, cs: seq<nat>, others: seq<int>, f: Forest)
    requires ForestOk(w, freq, cs, others, f)
    ensures Sizes(w, freq, cs, others, f)
  {
  }

  lemma {:induction false} AreTwoLeast(freq: seq<nat>, c1: nat, c2: nat)
    requires c1 < |freq| && c2 < |freq| && c1 != c2 && freq[c1] > 0 && freq[c2] > 0
    requires forall i :: 0 <= i < |freq| && freq[i] > 0 ==> freq[c1] <= freq[i]
    requires forall i :: 0 <= i < |freq| && freq[i] > 0 && i != c1 ==> freq[c2] <= freq[i]
    ensures TwoLeast(freq, c1, c2)
  {
  }

  lemma {:induction false} AreNextTwo(freq: seq<nat>, c1: nat, c2: nat)
    requires c1 < |freq| && c2 < |freq| && c1 != c2 && freq[c1] > 0 && freq[c2] > 0
    requires forall i :: 0 <= i < |freq| && freq[i] > 0 ==> freq[c1] <= freq[i] && (freq[c1] == freq[i] ==> i <= c1)
    requires forall i :: 0 <= i < |freq| && freq[i] > 0 && i != c1 ==> freq[c2] <= freq[i] && (freq[c2] == freq[i] ==> i <= c2)
    ensures NextTwo(freq, c1, c2)
  {
  }

  lemma {:induction false} NothingPaid(w: seq<nat>)
    ensures PaidSoFar(w, w, 0)
  {
  }

  lemma {:induction false} AllBelowLimit(freq: seq<nat>)
    requires Sum(freq) <= LIMIT
    ensures forall i :: 0 <= i < |freq| ==> freq[i] <= LIMIT
  {
    forall i | 0 <= i < |freq| ensures freq[i] <= LIMIT {
      SumAtLeast(freq, i);
    }
  }

  lemma {:induction false} UncountedZero(w: seq<nat>, freq: seq<nat>, cs: seq<nat>, others: seq<int>, f: Forest)
    requires ForestOk(w, freq, cs, others, f)
    ensures |w| == |cs| == SYMBOLS && forall s :: 0 <= s < SYMBOLS && w[s] == 0 ==> cs[s] == 0
  {
  }

  /** Everything one merge does to the forest and to the bound. */
  lemma {:induction false} MergeAll(w: seq<nat>, freq: seq<nat>, cs: seq<nat>, others: seq<int>, f: Forest, c1: nat, c2: nat)
    returns (cs1: seq<nat>, others1: seq<int>)
    requires ForestOk(w, freq, cs, others, f) && PaidSoFar(w, freq, TotalLength(w, cs)) && TwoLeast(freq, c1, c2)
    ensures c1 < |freq| == |cs| == |others| == |f.chains| == |f.trees| == SYMBOLS && c2 < SYMBOLS && freq[c1] > 0 && freq[c2] > 0 && c1 != c2
    ensures var a, b := f.chains[c1], f.chains[c2];
      && Chain(others, a, c1) && a != [] && a[|a| - 1] < SYMBOLS && others1 == others[a[|a| - 1] := c2] && Chain(others1, b, c2)
      && cs1 == Bumped(Bumped(cs, a), b)
    ensures ForestOk(w, Merged(freq, c1, c2), cs1, others1, Join(f, c1, c2))
    ensures PaidSoFar(w, Merged(freq, c1, c2), TotalLength(w, cs1))
    ensures Sum(Merged(freq, c1, c2)) == Sum(freq) && |Support(Merged(freq, c1, c2))| < |Support(freq)|
  {
    ForestSizes(w, freq, cs, others, f);
    LeastInRange(freq, c1, c2);
    hide ForestOk, PaidSoFar, TotalLength, Sum, TwoLeast, Support, Bumped, Chain;
    MergeKeeps(w, freq, cs, others, f, c1, c2);
    MergeLength(w, freq, cs, others, f, c1, c2);
    PayMerge(w, freq, c1, c2, TotalLength(w, cs));
    MergeSum(freq, c1, c2);
    RootChain(w, freq, cs, others, f, c1);
    ChainElsewhere(w, freq, cs, others, f, c1, c2);
    var a, b := f.chains[c1], f.chains[c2];
    cs1, others1 := Bumped(Bumped(cs, a), b), others[a[|a| - 1] := c2];
  }

  /** One merge, as the source carries it out on its arrays. */
  method Merge(ghost w: seq<nat>, freq: array<nat>, codesize: array<nat>, others: array<int>, ghost f: Forest, c1: nat, c2: nat)
    returns (ghost f1: Forest)
    requires freq.Length == codesize.Length == others.Length == SYMBOLS && freq != codesize
    requires ForestOk(w, freq[..], codesize[..], others[..], f) && PaidSoFar(w, freq[..], TotalLength(w, codesize[..]))
    requires c1 < SYMBOLS && c2 < SYMBOLS && TwoLeast(freq[..], c1, c2)
    modifies freq, codesize, others
    ensures ForestOk(w, freq[..], codesize[..], others[..], f1)
    ensures PaidSoFar(w, freq[..], TotalLength(w, codesize[..]))
    ensures Sum(freq[..]) == Sum(old(freq[..])) && freq[c1] > 0
    ensures |Support(freq[..])| < |Support(old(freq[..]))|
    ensures |f.chains| == |f.trees| == SYMBOLS && f1 == Join(f, c1, c2) && freq[..] == Merged(old(freq[..]), c1, c2)
    ensures codesize[..] == Bumped(Bumped(old(codesize[..]), f.chains[c1]), f.chains[c2])
  {
    hide ForestOk, PaidSoFar, TotalLength, Sum, TwoLeast, Support, Bumped, Chain, Sizes, Join;
    ghost var fr, cs, os := freq[..], codesize[..], others[..];
    ghost var cs1, os1 := MergeAll(w, fr, cs, os, f, c1, c2);
    f1 := Join(f, c1, c2);
    freq[c1] := freq[c1] + freq[c2];
    freq[c2] := 0;
    assert freq[..] == Merged(fr, c1, c2);
    var last := BumpBranch(codesize, others, c1, f.chains[c1]);
    others[last] := c2;
    assert others[..] == os1;
    var last2 := BumpBranch(codesize, others, c2, f.chains[c2]);
    assert codesize[..] == cs1;
  }

  lemma {:induction false} RootChain(w: seq<nat>, freq: seq<nat>, cs: seq<nat>, others: seq<int>, f: Forest, c: nat)
    requires ForestOk(w, freq, cs, others, f) && c < SYMBOLS && freq[c] > 0
    ensures Chain(others, f.chains[c], c)
  {
    assert RootOk(w, freq, cs, others, f, c);
  }

  /** The branch of c2 is the same after c2 has been chained onto the branch of c1. */
  lemma {:induction false} ChainElsewhere(w: seq<nat>, freq: seq<nat>, cs: seq<nat>, others: seq<int>, f: Forest, c1: nat, c2: nat)
    requires ForestOk(w, freq, cs, others, f) && c1 < SYMBOLS && c2 < SYMBOLS && c1 != c2 && freq[c1] > 0 && freq[c2] > 0
    ensures var a := f.chains[c1]; a != [] && a[|a| - 1] < SYMBOLS && Chain(others[a[|a| - 1] := c2], f.chains[c2], c2)
  {
    assert RootOk(w, freq, cs, others, f, c1) && RootOk(w, freq, cs, others, f, c2);
    var a := f.chains[c1];
    assert a[|a| - 1] in a;
    ChainKept(others, f.chains[c2], c2, a[|a| - 1], c2);
  }

  lemma {:induction false} MergeSum(freq: seq<nat>, c1: nat, c2: nat)
    requires c1 < |freq| && c2 < |freq| && c1 != c2 && freq[c1] > 0 && freq[c2] > 0
    ensures Sum(Merged(freq, c1, c2)) == Sum(freq) && |Support(Merged(freq, c1, c2))| < |Support(freq)|
  {
    MergeSupport(freq, c1, c2);
    MergeTotal(freq, c1, c2);
    hide *;
  }

  lemma {:induction false} MergeTotal(freq: seq<nat>, c1: nat, c2: nat)
    requires c1 < |freq| && c2 < |freq| && c1 != c2
    ensures Sum(Merged(freq, c1, c2)) == Sum(freq)
  {
    hide Sum;
    var f1 := freq[c1 := freq[c1] + freq[c2]];
    SumUpdate(freq, c1, freq[c1] + freq[c2]);
    SumUpdate(f1, c2, 0);
  }

  lemma {:induction false} MergeSupport(freq: seq<nat>, c1: nat, c2: nat)
    requires c1 < |freq| && c2 < |freq| && c1 != c2 && freq[c1] > 0 && freq[c2] > 0
    ensures |Support(Merged(freq, c1, c2))| < |Support(freq)|
  {
    assert Support(Merged(freq, c1, c2)) == Support(freq) - {c2};
  }
}
