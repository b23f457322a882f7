// Code trees over symbols with counts, and why repeatedly merging the two least counts gives
// a tree of least cost.
module HuffmanTree {

  datatype Tree = Leaf(sym: nat) | Node(left: Tree, right: Tree)

  function Leaves(t: Tree): set<nat> {
    match t
    case Leaf(s) => {s}
    case Node(l, r) => Leaves(l) + Leaves(r)
  }

  /** No symbol occurs twice. */
  predicate Proper(t: Tree) {
    match t
    case Leaf(_) => true
    case Node(l, r) => Proper(l) && Proper(r) && Leaves(l) !! Leaves(r)
  }

  function Height(t: Tree): nat {
    match t
    case Leaf(_) => 0
    case Node(l, r) => 1 + if Height(l) >= Height(r) then Height(l) else Height(r)
  }

  /** Depth of a symbol: the length of its code. */
  function Depth(t: Tree, s: nat): (d: nat)
    requires s in Leaves(t)
    ensures d <= Height(t)
  {
    match t
    case Leaf(_) => 0
    case Node(l, r) => 1 + if s in Leaves(l) then Depth(l, s) else Depth(r, s)
  }

  predicate Counted(t: Tree, w: seq<nat>) {
    match t
    case Leaf(s) => s < |w|
    case Node(l, r) => Counted(l, w) && Counted(r, w)
  }

  ghost predicate AllBelow(u: set<nat>, n: nat) {
    forall s :: s in u ==> s < n
  }

  lemma {:induction false} CountedLeaves(t: Tree, w: seq<nat>)
    ensures Counted(t, w) <==> AllBelow(Leaves(t), |w|)
  {
    if t.Node? {
      CountedLeaves(t.left, w);
      CountedLeaves(t.right, w);
      assert Leaves(t.left) <= Leaves(t) && Leaves(t.right) <= Leaves(t);
    } else {
      assert t.sym in Leaves(t);
    }
  }

  function Weight(t: Tree, w: seq<nat>): nat
    requires Counted(t, w)
  {
    match t
    case Leaf(s) => w[s]
    case Node(l, r) => Weight(l, w) + Weight(r, w)
  }

  /** Total length of all codes: count times depth, summed over the symbols. */
  function Cost(t: Tree, w: seq<nat>): nat
    requires Counted(t, w)
  {
    match t
    case Leaf(_) => 0
    case Node(l, r) => Cost(l, w) + Cost(r, w) + Weight(l, w) + Weight(r, w)
  }

  // ----- exchanging two symbols -----

  function Other(s: nat, x: nat, y: nat): nat {
    if s == x then y else if s == y then x else s
  }

  function Swap(t: Tree, x: nat, y: nat): Tree {
    match t
    case Leaf(s) => Leaf(Other(s, x, y))
    case Node(l, r) => Node(Swap(l, x, y), Swap(r, x, y))
  }

  lemma {:induction false} SwapLeaves(t: Tree, x: nat, y: nat)
    ensures forall s: nat :: s in Leaves(Swap(t, x, y)) <==> Other(s, x, y) in Leaves(t)
    ensures Proper(t) ==> Proper(Swap(t, x, y))
    ensures Height(Swap(t, x, y)) == Height(t)
    ensures x in Leaves(t) && y in Leaves(t) ==> Leaves(Swap(t, x, y)) == Leaves(t)
  {
    if t.Node? {
      SwapLeaves(t.left, x, y);
      SwapLeaves(t.right, x, y);
    }
    if x in Leaves(t) && y in Leaves(t) {
      forall s ensures s in Leaves(Swap(t, x, y)) <==> s in Leaves(t) {
      }
    }
  }

  /** depth of s, or 0 if s does not occur. */
  function DepthOr0(t: Tree, s: nat): nat {
    if s in Leaves(t) then Depth(t, s) else 0
  }

  function Has(t: Tree, s: nat): nat {
    if s in Leaves(t) then 1 else 0
  }

  function Minus(a: nat, b: nat): int {
    a - b
  }

  /** What an exchange does to weight and cost. */
  lemma {:induction false} SwapCost(t: Tree, x: nat, y: nat, w: seq<nat>)
    requires Proper(t) && Counted(t, w) && x < |w| && y < |w| && x != y
    ensures Counted(Swap(t, x, y), w)
    ensures Weight(Swap(t, x, y), w) == Weight(t, w) + Has(t, x) * Minus(w[y], w[x]) + Has(t, y) * Minus(w[x], w[y])
    ensures Cost(Swap(t, x, y), w) == Cost(t, w) + DepthOr0(t, x) * Minus(w[y], w[x]) + DepthOr0(t, y) * Minus(w[x], w[y])
  {
    if t.Node? {
      var e, f := Minus(w[y], w[x]), Minus(w[x], w[y]);
      SwapCost(t.left, x, y, w);
      SwapCost(t.right, x, y, w);
      NodeDepth(t, x, e);
      NodeDepth(t, y, f);
      hide Minus, DepthOr0, Has, Leaves, Proper;
    } else {
      LeafSwap(t.sym, x, y, w);
    }
  }

  lemma {:induction false} LeafSwap(s: nat, x: nat, y: nat, w: seq<nat>)
    requires x < |w| && y < |w| && s < |w| && x != y
    ensures Other(s, x, y) < |w|
    ensures w[Other(s, x, y)] == w[s] + Has(Leaf(s), x) * Minus(w[y], w[x]) + Has(Leaf(s), y) * Minus(w[x], w[y])
    ensures DepthOr0(Leaf(s), x) == 0 == DepthOr0(Leaf(s), y)
  {
  }

  lemma {:induction false} NodeDepth(t: Tree, s: nat, e: int)
    requires t.Node? && Proper(t)
    ensures Has(t, s) * e == Has(t.left, s) * e + Has(t.right, s) * e
    ensures DepthOr0(t, s) * e == DepthOr0(t.left, s) * e + DepthOr0(t.right, s) * e + Has(t, s) * e
  {
    var d, l, r, h := DepthOr0(t, s), DepthOr0(t.left, s), DepthOr0(t.right, s), Has(t, s);
    assert h == Has(t.left, s) + Has(t.right, s) && d == l + r + h by {
      if s in Leaves(t.left) {
        assert s !in Leaves(t.right);
      }
    }
    hide *;
    SumTimes(Has(t.left, s), Has(t.right, s), 0, e);
    SumTimes(l, r, h, e);
  }

  lemma {:induction false} SumTimes(a: int, b: int, c: int, e: int)
    ensures (a + b + c) * e == a * e + b * e + c * e
  {
  }

  /** Moving a lighter symbol down and a heavier one up costs nothing. */
  lemma {:induction false} SwapHelps(t: Tree, x: nat, y: nat, w: seq<nat>)
    requires Proper(t) && Counted(t, w) && x in Leaves(t) && y in Leaves(t) && x < |w| && y < |w|
    requires w[x] <= w[y] && Depth(t, x) <= Depth(t, y)
    ensures Counted(Swap(t, x, y), w) && Proper(Swap(t, x, y)) && Leaves(Swap(t, x, y)) == Leaves(t)
    ensures Cost(Swap(t, x, y), w) <= Cost(t, w)
  {
    SwapLeaves(t, x, y);
    if x == y {
      SwapSame(t, x);
    } else {
      SwapCost(t, x, y, w);
      assert DepthOr0(t, x) == Depth(t, x) && DepthOr0(t, y) == Depth(t, y);
      hide Proper, Counted, Swap, Cost, Depth, Leaves, Other;
      Saves(DepthOr0(t, x), DepthOr0(t, y), Minus(w[y], w[x]), Minus(w[x], w[y]));
    }
  }

  lemma {:induction false} Saves(a: nat, b: nat, e: int, f: int)
    requires a <= b && e >= 0 && f == -e
    ensures a * e + b * f <= 0
  {
    assert b * f == -(b * e);
    assert b * e == a * e + (b - a) * e;
  }

  lemma {:induction false} SwapSame(t: Tree, x: nat)
    ensures Swap(t, x, x) == t
  {
    if t.Node? {
      SwapSame(t.left, x);
      SwapSame(t.right, x);
    }
  }

  // ----- the deepest pair -----

  /** Two siblings at the greatest depth. */
  function DeepPair(t: Tree): (nat, nat)
    requires t.Node?
  {
    if t.left.Leaf? && t.right.Leaf? then (t.left.sym, t.right.sym)
    else if Height(t.left) >= Height(t.right) then DeepPair(t.left)
    else DeepPair(t.right)
  }

  /** The tree with that pair replaced by its first symbol. */
  function Collapse(t: Tree): Tree
    requires t.Node?
  {
    if t.left.Leaf? && t.right.Leaf? then t.left
    else if Height(t.left) >= Height(t.right) then Node(Collapse(t.left), t.right)
    else Node(t.left, Collapse(t.right))
  }

  lemma {:induction false} DeepPairIs(t: Tree)
    requires t.Node? && Proper(t)
    ensures var (a, b) := DeepPair(t);
      a in Leaves(t) && b in Leaves(t) && a != b && Depth(t, a) == Height(t) == Depth(t, b)
  {
    if t.left.Leaf? && t.right.Leaf? {
    } else if Height(t.left) >= Height(t.right) {
      DeepPairIs(t.left);
    } else {
      DeepPairIs(t.right);
    }
  }

  lemma {:induction false} SwapDeepPair(t: Tree, x: nat, y: nat)
    requires t.Node?
    ensures var (a, b) := DeepPair(t); DeepPair(Swap(t, x, y)) == (Other(a, x, y), Other(b, x, y))
  {
    SwapLeaves(t.left, x, y);
    SwapLeaves(t.right, x, y);
    if t.left.Leaf? && t.right.Leaf? {
    } else if Height(t.left) >= Height(t.right) {
      SwapDeepPair(t.left, x, y);
    } else {
      SwapDeepPair(t.right, x, y);
    }
  }

  /** Counts after merging b into a. */
  function Merged(w: seq<nat>, a: nat, b: nat): (m: seq<nat>)
    requires a < |w| && b < |w|
    ensures |m| == |w|
  {
    w[a := w[a] + w[b]][b := 0]
  }

  lemma {:induction false} SameCounts(t: Tree, w: seq<nat>, m: seq<nat>)
    requires Counted(t, w) && |m| == |w| && forall s :: s in Leaves(t) && s < |w| ==> m[s] == w[s]
    ensures Counted(t, m) && Weight(t, m) == Weight(t, w) && Cost(t, m) == Cost(t, w)
  {
    if t.Node? {
      SameCounts(t.left, w, m);
      SameCounts(t.right, w, m);
    }
  }

  lemma {:induction false} CollapseCost(t: Tree, w: seq<nat>)
    requires t.Node? && Proper(t) && Counted(t, w)
    ensures var (a, b) := DeepPair(t);
      && a in Leaves(t) && b in Leaves(t) && a != b && a < |w| && b < |w|
      && Proper(Collapse(t)) && Leaves(Collapse(t)) == Leaves(t) - {b}
      && Counted(Collapse(t), Merged(w, a, b))
      && Weight(Collapse(t), Merged(w, a, b)) == Weight(t, w)
      && Cost(t, w) == Cost(Collapse(t), Merged(w, a, b)) + w[a] + w[b]
  {
    DeepPairIs(t);
    CountedLeaves(t, w);
    var (a, b) := DeepPair(t);
    var m := Merged(w, a, b);
    if t.left.Leaf? && t.right.Leaf? {
    } else if Height(t.left) >= Height(t.right) {
      CollapseCost(t.left, w);
      SameCounts(t.right, w, m);
    } else {
      CollapseCost(t.right, w);
      SameCounts(t.left, w, m);
    }
  }

  // ----- least cost -----

  function Support(w: seq<nat>): (u: set<nat>)
    ensures forall s: nat :: s in u <==> s < |w| && w[s] > 0
  {
    set s: nat | s < |w| && w[s] > 0
  }

  /** A code tree for exactly the symbols that occur. */
  ghost predicate CodeTree(t: Tree, w: seq<nat>) {
    Proper(t) && Counted(t, w) && Leaves(t) == Support(w)
  }

  /** No code tree costs less than b. */
  ghost predicate LowerBound(w: seq<nat>, b: nat) {
    forall t: Tree :: CodeTree(t, w) ==> Cost(t, w) >= b
  }

  /** x and y are two symbols of least count. */
  ghost predicate TwoLeast(w: seq<nat>, x: nat, y: nat) {
    && x < |w| && y < |w| && x != y && w[x] > 0 && w[y] > 0
    && (forall s :: 0 <= s < |w| && w[s] > 0 ==> w[x] <= w[s])
    && (forall s :: 0 <= s < |w| && w[s] > 0 && s != x ==> w[y] <= w[s])
  }

  /** Bringing x and y to the deepest pair costs nothing. */
  lemma {:induction false} MakeDeep(t: Tree, w: seq<nat>, x: nat, y: nat) returns (t2: Tree)
    requires CodeTree(t, w) && TwoLeast(w, x, y)
    ensures CodeTree(t2, w) && t2.Node? && DeepPair(t2) == (x, y) && Cost(t2, w) <= Cost(t, w)
  {
    hide Cost, TwoLeast, DeepPair, Swap, Depth, Height;
    LeastIn(t, w, x, y);
    DeepPairIs(t);
    DepthBelow(t, x);
    var (a, b) := DeepPair(t);
    CountedLeaves(t, w);
    SwapHelps(t, x, a, w);
    SwapDeepPair(t, x, a);
    var t1 := Swap(t, x, a);
    SwapNode(t, x, a);
    DeepPairIs(t1);
    DepthBelow(t1, y);
    var b1 := DeepPair(t1).1;
    LeastIn(t1, w, x, y);
    CountedLeaves(t1, w);
    SwapHelps(t1, y, b1, w);
    SwapDeepPair(t1, y, b1);
    SwapNode(t1, y, b1);
    t2 := Swap(t1, y, b1);
  }

  lemma {:induction false} SwapNode(t: Tree, x: nat, y: nat)
    ensures Swap(t, x, y).Node? <==> t.Node?
  {
  }

  lemma {:induction false} DepthBelow(t: Tree, s: nat)
    requires s in Leaves(t)
    ensures Depth(t, s) <= Height(t)
  {
  }

  lemma {:induction false} LeastIn(t: Tree, w: seq<nat>, x: nat, y: nat)
    requires CodeTree(t, w) && TwoLeast(w, x, y)
    ensures t.Node? && x in Leaves(t) && y in Leaves(t) && x != y && x < |w| && y < |w|
    ensures forall s :: s in Leaves(t) && s < |w| ==> w[x] <= w[s] && (s != x ==> w[y] <= w[s])
  {
    assert x in Leaves(t) && y in Leaves(t);
  }

  /** One merge: a bound for the merged counts gives one for the counts before. */
  lemma {:induction false} MergeBound(w: seq<nat>, x: nat, y: nat, b: nat)
    requires TwoLeast(w, x, y) && LowerBound(Merged(w, x, y), b)
    ensures LowerBound(w, b + w[x] + w[y])
  {
    hide Cost;
    forall t: Tree | CodeTree(t, w) ensures Cost(t, w) >= b + w[x] + w[y] {
      var t2 := MakeDeep(t, w, x, y);
      CollapseCost(t2, w);
      var m := Merged(w, x, y);
      assert Support(m) == Support(w) - {y};
      assert CodeTree(Collapse(t2), m);
    }
  }

  /** A single symbol needs no code at all. */
  lemma {:induction false} SingleBound(w: seq<nat>)
    ensures LowerBound(w, 0)
  {
  }
}
