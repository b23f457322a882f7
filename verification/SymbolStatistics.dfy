// From counted symbols to an optimal table: what the coders' statistics passes hand to
// jpeg_gen_optimal_table (3rd/jpeg/jchuff.c:846-880, 3rd/jpeg/jcphuff.c:767-811).
module SymbolStatistics {
  import opened Tokens
  import opened HuffmanCodes
  import opened HuffmanTree
  import opened CodeSizes
  import opened OptimalTable

  /** The symbols of one table that occur in a token stream. */
  function UsedBy(ts: seq<Token>, tbl: Table): (u: set<nat>)
    ensures forall i :: 0 <= i < |ts| && ts[i].Sym? && ts[i].tbl == tbl ==> ts[i].s in u
    ensures forall s :: s in u ==> exists i :: 0 <= i < |ts| && ts[i] == Sym(tbl, s)
  {
    set i | 0 <= i < |ts| && ts[i].Sym? && ts[i].tbl == tbl :: ts[i].s
  }

  /** A symbol the coders can emit: no more than 11 bits of a DC difference or 10 of an AC value. */
  predicate Emitted(t: Token) {
    t.Sym? ==> if t.tbl.Dc? then t.s <= 11 else t.s < 256 && t.s % 16 <= 10
  }

  ghost predicate AllEmitted(ts: seq<Token>) {
    forall i :: 0 <= i < |ts| ==> Emitted(ts[i])
  }

  /** How often each symbol of a table occurs. */
  function FreqOf(ts: seq<Token>, tbl: Table): (f: seq<nat>)
    ensures |f| == SYMBOLS
  {
    seq(SYMBOLS, s requires 0 <= s < SYMBOLS => if s < 256 then multiset(ts)[Sym(tbl, s)] else 0)
  }

  lemma {:induction false} FreqMore(ts: seq<Token>, t: Token, tbl: Table)
    ensures FreqOf(ts + [t], tbl) ==
            if t.Sym? && t.tbl == tbl && t.s < 256 then FreqOf(ts, tbl)[t.s := FreqOf(ts, tbl)[t.s] + 1] else FreqOf(ts, tbl)
  {
  }

  lemma {:induction false} SumZero(w: seq<nat>)
    requires forall i :: 0 <= i < |w| ==> w[i] == 0
    ensures Sum(w) == 0
  {
    if w != [] {
      SumZero(w[..|w| - 1]);
    }
  }

  lemma {:induction false} SumStep(ts: seq<Token>, t: Token, tbl: Table)
    ensures Sum(FreqOf(ts + [t], tbl)) <= Sum(FreqOf(ts, tbl)) + 1
  {
    FreqMore(ts, t, tbl);
    var f := FreqOf(ts, tbl);
    hide FreqOf, Sum;
    if t.Sym? && t.s < 256 {
      SumUpdate(f, t.s, f[t.s] + 1);
    }
  }

  lemma {:induction false} NothingCounted(tbl: Table)
    ensures Sum(FreqOf([], tbl)) == 0
  {
    hide Sum;
    SumZero(FreqOf([], tbl));
  }

  lemma {:induction false} SumBound(ts: seq<Token>, tbl: Table)
    ensures Sum(FreqOf(ts, tbl)) <= |ts|
    decreases |ts|
  {
    hide FreqOf, Sum;
    if ts == [] {
      NothingCounted(tbl);
    } else {
      var t, rest := ts[|ts| - 1], ts[..|ts| - 1];
      assert ts == rest + [t];
      SumBound(rest, tbl);
      SumStep(rest, t, tbl);
    }
  }

  lemma {:induction false} UsedFreq(ts: seq<Token>, tbl: Table)
    requires AllEmitted(ts)
    ensures Used(FreqOf(ts, tbl)) == UsedBy(ts, tbl)
  {
    forall s | s in UsedBy(ts, tbl)
      ensures s in Used(FreqOf(ts, tbl))
    {
      var i :| 0 <= i < |ts| && ts[i] == Sym(tbl, s);
      assert Emitted(ts[i]);
      assert ts[i] in multiset(ts);
    }
    forall s | s in Used(FreqOf(ts, tbl))
      ensures s in UsedBy(ts, tbl)
    {
      assert Sym(tbl, s) in multiset(ts);
      var i :| 0 <= i < |ts| && ts[i] == Sym(tbl, s);
    }
  }

  lemma {:induction false} FewOf(u: set<nat>, all: set<nat>)
    requires |all| == 256 && forall s: nat :: s in all <==> s < 256
    requires forall s :: s in u ==> s < 256 && s % 16 <= 11
    ensures |u| <= 254
  {
    assert u <= all - {12, 13};
    var rest := all - {12, 13};
    assert rest == u + (rest - u);
    assert 12 in all && 13 in all - {12};
    assert all - {12, 13} == all - {12} - {13};
  }

  lemma {:induction false} FewSymbols(u: set<nat>, n: nat)
    requires n == 256 && forall s :: s in u ==> s < n && s % 16 <= 11
    ensures |u| <= 254
  {
    FewOf(u, Below(n));
  }

  ghost function Below(n: nat): (r: set<nat>)
    ensures |r| == n && forall s: nat :: s in r <==> s < n
  {
    if n == 0 then {} else Below(n - 1) + {n - 1}
  }

  /** The counters agree with a token stream. */
  ghost predicate Counts(counts: map<Token, nat>, ts: seq<Token>) {
    forall t: Token :: t.Sym? ==> (if t in counts then counts[t] else 0) == multiset(ts)[t]
  }

  /** The table comes from a least-cost code for the symbols a token stream takes from it: its symbols are in
      order of that code's sizes, and these are its code lengths if none exceeds 16. */
  ghost predicate MadeFrom(t: HuffTbl, ts: seq<Token>, tbl: Table, cs: seq<nat>, tree: Tree) {
    && |cs| == SYMBOLS && LeastCost(FreqOf(ts, tbl)[PSEUDO := 1], cs, tree)
    && Follows(t, cs, |UsedBy(ts, tbl)|) && Serves(t, UsedBy(ts, tbl))
  }

  ghost predicate Optimal(t: HuffTbl, ts: seq<Token>, tbl: Table) {
    exists cs: seq<nat>, tree: Tree :: MadeFrom(t, ts, tbl, cs, tree)
  }

  lemma {:induction false} OptimalServes(t: HuffTbl, ts: seq<Token>, tbl: Table)
    requires Optimal(t, ts, tbl)
    ensures Serves(t, UsedBy(ts, tbl))
  {
    hide LeastCost, Follows, Serves, UsedBy;
  }

  /** An optimal table from the counters: it serves exactly the symbols that were counted, unless
      a code size above 32 makes it fail. */
  method MakeTable(counts: map<Token, nat>, tbl: Table, ghost ts: seq<Token>)
    returns (ok: bool, t: HuffTbl, ghost tree: Tree, ghost cs: seq<nat>)
    requires Counts(counts, ts) && AllEmitted(ts) && UsedBy(ts, tbl) != {} && |ts| < 1_000_000_000
    ensures |cs| == SYMBOLS && LeastCost(FreqOf(ts, tbl)[PSEUDO := 1], cs, tree)
    ensures ok <==> AllWithin(cs)
    ensures ok ==> Serves(t, UsedBy(ts, tbl)) && MadeFrom(t, ts, tbl, cs, tree) && Optimal(t, ts, tbl)
  {
    hide Serves, LeastCost, AllWithin, Sum, AllEmitted, UsedBy, Follows;
    var freq := new nat[SYMBOLS];
    for s := 0 to SYMBOLS
      invariant forall k :: 0 <= k < s ==> freq[k] == FreqOf(ts, tbl)[k]
    {
      var sym := Sym(tbl, s);
      freq[s] := if s < 256 && sym in counts then counts[sym] else 0;
    }
    ghost var f := FreqOf(ts, tbl);
    assert freq[..] == f;
    UsedFreq(ts, tbl);
    SmallSet(ts, tbl);
    FewSymbols(UsedBy(ts, tbl), 256);
    SumBound(ts, tbl);
    SumUpdate(f, PSEUDO, 1);
    ok, t, tree, cs := GenOptimalTable(freq);
    assert ok ==> MadeFrom(t, ts, tbl, cs, tree);
  }

  lemma {:induction false} SmallSet(ts: seq<Token>, tbl: Table)
    requires AllEmitted(ts)
    ensures forall s :: s in UsedBy(ts, tbl) ==> s < 256 && s % 16 <= 11 && (tbl.Dc? ==> s <= 11)
  {
    forall s | s in UsedBy(ts, tbl)
      ensures s < 256 && s % 16 <= 11 && (tbl.Dc? ==> s <= 11)
    {
      var i :| 0 <= i < |ts| && ts[i] == Sym(tbl, s);
      assert Emitted(ts[i]);
    }
  }
}
