// Optimal coding of a progressive AC scan: statistics pass, table, output pass, bytes.
module ProgressiveOptimal {
  import opened Arith
  import opened Coefficients
  import opened Tokens
  import opened AcRefine
  import opened AcFirst
  import opened AcEmissions
  import opened HuffmanCodes
  import opened DerivedTables
  import opened CodeSizes
  import opened OptimalTable
  import opened SymbolStatistics
  import opened SequentialScan
  import opened TokenBytes
  import opened OptimalCoding
  import AC = AcScan
  import E = ProgressiveEncoder

  /** What a decoder would show of a block before the scan. */
  function Shadow(b: Band, z: seq<int>): (d: seq<int>)
    requires |z| == 64
    ensures |d| == 64
  {
    seq(64, k requires 0 <= k < 64 => if b.ah == 0 then 0 else AcShown(z[k], b.al + 1))
  }

  function Shadows(b: Band, zs: seq<seq<int>>): (xs: seq<AC.Pair>)
    requires forall i :: 0 <= i < |zs| ==> |zs[i]| == 64
    ensures |xs| == |zs| && AC.Zs(xs) == zs
  {
    seq(|zs|, i requires 0 <= i < |zs| => AC.Pair(zs[i], Shadow(b, zs[i])))
  }

  /** The range check of a first scan. */
  ghost predicate AllInRange(b: Band, zs: seq<seq<int>>)
    requires BandOk(b) && forall i :: 0 <= i < |zs| ==> |zs[i]| == 64
  {
    b.ah == 0 ==> forall i :: 0 <= i < |zs| ==> InRange(b, zs[i])
  }

  lemma {:induction false} ShadowsOk(b: Band, zs: seq<seq<int>>)
    requires BandOk(b) && (forall i :: 0 <= i < |zs| ==> |zs[i]| == 64) && AllInRange(b, zs)
    ensures AC.AllOk(b, Shadows(b, zs))
  {
    hide InRange, AcShown;
  }

  /** What a scan emits is regular and, for at least one block, uses its table. */
  lemma {:induction false} ScanRegular(b: Band, zs: seq<seq<int>>, interval: nat)
    requires BandOk(b) && (forall i :: 0 <= i < |zs| ==> |zs[i]| == 64) && AllInRange(b, zs) && zs != []
    ensures AllRegular(b.tbl, AC.PassTokens(b, zs, interval)) && HasSymbol(AC.PassTokens(b, zs, interval))
  {
    ShadowsOk(b, zs);
    hide AC.AllOk, AC.PassTokens, AllInRange;
    PassRegular(b, Shadows(b, zs), interval);
    PassSymbol(b, Shadows(b, zs), interval);
  }

  lemma {:induction false} RegularEmitted(tbl: Table, ts: seq<Token>)
    requires tbl.Ac? && AllRegular(tbl, ts) && HasSymbol(ts)
    ensures AllEmitted(ts) && UsedBy(ts, tbl) != {}
    ensures forall i :: 0 <= i < |ts| && ts[i].Bits? ==> 1 <= ts[i].n <= 16
  {
    hide Pow2;
    forall i | 0 <= i < |ts|
      ensures Emitted(ts[i]) && (ts[i].Bits? ==> 1 <= ts[i].n <= 16)
    {
      assert Regular(tbl, ts[i]);
    }
    var i :| 0 <= i < |ts| && ts[i].Sym?;
    assert Regular(tbl, ts[i]);
    assert ts[i].s in UsedBy(ts, tbl);
  }

  /** One table in its slot, with its derived codes. */
  function OneTable(no: nat, t: HuffTbl, c: CTbl): Tables {
    Tables([], seq(no + 1, _ => t), [], seq(no + 1, _ => c))
  }

  lemma {:induction false} OneTableOk(no: nat, t: HuffTbl, c: CTbl)
    requires Legal(t, false) && Encodes(t, Total(t.bits), c.ehufco, c.ehufsi)
    ensures TablesOk(OneTable(no, t, c))
  {
    hide Legal, Encodes, Total;
  }

  /** A table that serves a scan leaves none of its symbols without a code. */
  lemma {:induction false} ServedSendable(no: nat, t: HuffTbl, c: CTbl, ts: seq<Token>)
    requires AllRegular(Ac(no), ts) && Serves(t, UsedBy(ts, Ac(no)))
    requires Legal(t, false) && Encodes(t, Total(t.bits), c.ehufco, c.ehufsi)
    ensures AllSendable(OneTable(no, t, c), ts)
  {
    hide Serves, Legal, Encodes, Total, Pow2;
    forall i | 0 <= i < |ts|
      ensures Sendable(OneTable(no, t, c), ts[i])
    {
      assert Regular(Ac(no), ts[i]);
      if ts[i].Sym? {
        UsedHaveCodes(t, UsedBy(ts, Ac(no)), c.ehufco, c.ehufsi, ts[i].s);
      }
    }
  }

  lemma {:induction false} RegularLegal(no: nat, t: HuffTbl, ts: seq<Token>)
    requires AllEmitted(ts) && Serves(t, UsedBy(ts, Ac(no)))
    ensures Shape(t) && Legal(t, false)
  {
    SmallSet(ts, Ac(no));
    ServesIsLegal(t, UsedBy(ts, Ac(no)), false);
    hide UsedBy, Kraft, Total, Distinct, SymbolsUpTo;
  }

  lemma {:induction false} ViewsInRange(b: Band, blocks: seq<array<int>>, order: seq<nat>)
    requires BandOk(b) && IsZigzag(order) && forall i :: 0 <= i < |blocks| ==> blocks[i].Length == 64
    ensures (b.ah == 0 ==> forall i :: 0 <= i < |blocks| ==> InRange(b, View(blocks[i], order))) <==> AllInRange(b, ViewAll(blocks, order))
  {
    hide InRange, View, IsZigzag;
    var zs := ViewAll(blocks, order);
    assert forall i :: 0 <= i < |blocks| ==> zs[i] == View(blocks[i], order);
  }

  /** Both passes over an AC scan.  A coefficient out of range in a first scan, or a code size
      above 32, is the only failure; otherwise every symbol has a code, and the bytes are
      those of the scan, from which it decodes (AcBits.PassDecodes). */
  method OptimiseThenSend(b: Band, interval: nat, blocks: seq<array<int>>, order: seq<nat>)
    returns (o: Optimised, x: Tables)
    requires BandOk(b) && b.tbl.Ac? && IsZigzag(order) && blocks != [] && forall i :: 0 <= i < |blocks| ==> blocks[i].Length == 64
    requires |AC.PassTokens(b, ViewAll(blocks, order), interval)| < 1_000_000_000
    ensures o.OutOfRange? <==> !AllInRange(b, ViewAll(blocks, order))
    ensures o.CodesTooLong? ==> Overlong(AC.PassTokens(b, ViewAll(blocks, order), interval), b.tbl)
    ensures o.Coded? ==>
      var ts := AC.PassTokens(b, ViewAll(blocks, order), interval);
      && b.tbl.no < |x.ac| && Optimal(x.ac[b.tbl.no], ts, b.tbl)
      && TablesOk(x) && AllSendable(x, ts) && o.bytes == StreamBytes(x, [], ts)
  {
    hide InRange, AC.PassTokens, IsZigzag, BandOk, AllInRange, ViewAll, View, AllRegular, HasSymbol, AllEmitted, UsedBy, Serves, Legal, Encodes,
      LeastCost, AllWithin, FreqOf, TablesOk, AllSendable, StreamBytes, Counts, Optimal, MadeFrom;
    x := Tables([], [], [], []);
    var ok, counts, out := E.CountThenEncode(b, interval, blocks, order);
    ViewsInRange(b, blocks, order);
    if !ok {
      return OutOfRange, x;
    }
    ghost var zs := ViewAll(blocks, order);
    ScanRegular(b, zs, interval);
    RegularEmitted(b.tbl, out);
    Counted(counts, out);
    var t;
    ghost var tree, cs;
    ok, t, tree, cs := MakeTable(counts, b.tbl, out);
    if !ok {
      assert LongCode(out, b.tbl, cs, tree);
      return CodesTooLong, x;
    }
    RegularLegal(b.tbl.no, t, out);
    var c;
    ok, c := MakeCDerived(t, false);
    x := OneTable(b.tbl.no, t, c);
    OneTableOk(b.tbl.no, t, c);
    ServedSendable(b.tbl.no, t, c, out);
    var bytes := Send(x, out);
    o := Coded(bytes);
  }

  lemma {:induction false} Counted(counts: map<Token, nat>, ts: seq<Token>)
    requires forall t: Token :: t.Sym? ==> (if t in counts then counts[t] else 0) == multiset(ts)[t]
    ensures Counts(counts, ts)
  {
  }
}
