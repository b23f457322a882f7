// Optimisation closes the loop: tables generated from the statistics of a scan hold a code for
// every symbol the output pass will emit, so that the scan can be coded.
module OptimalCoding {
  import opened Arith
  import opened BitPacking
  import opened Coefficients
  import opened Tokens
  import opened AcFirst
  import opened AcRefine
  import opened HuffmanCodes
  import opened DerivedTables
  import opened HuffmanTree
  import opened CodeSizes
  import opened OptimalTable
  import opened SequentialScan
  import opened SequentialStream
  import opened SequentialStatistics
  import opened SymbolStatistics
  import opened SequentialEncoder
  import D = DcScan
  import RT = SequentialRoundTrip

  /** A symbol of an existing table that the coders can emit, or bits that fit their size. */
  predicate Plain(x: Tables, t: Token) {
    Emitted(t) &&
    match t
    case Sym(tbl, s) => if tbl.Dc? then tbl.no < |x.dc| else tbl.no < |x.ac|
    case Bits(v, n) => v < Pow2(n)
    case Rst(_) => false
  }

  ghost predicate AllPlain(x: Tables, ts: seq<Token>) {
    forall i :: 0 <= i < |ts| ==> Plain(x, ts[i])
  }

  lemma {:induction false} PlainConcat(x: Tables, a: seq<Token>, b: seq<Token>)
    requires AllPlain(x, a) && AllPlain(x, b)
    ensures AllPlain(x, a + b)
  {
  }

  lemma {:induction false} AcPlain(x: Tables, ac: nat, z: seq<int>, k: nat, r: nat)
    requires |z| == 64 && k <= 64 && ac < |x.ac|
    requires forall i :: k <= i <= 63 ==> NBits(Abs(z[i])) <= MAX_COEF_BITS
    ensures AllPlain(x, AcTokens(ac, z, k, r))
    decreases 64 - k
  {
    hide AcTokens, Plain, MagnitudeBits, NBits;
    if k == 64 {
      AcTokensEnd(ac, z, r);
      SymbolPlain(x, ac, 0);
    } else {
      AcTokensStep(ac, z, k, r);
      if z[k] == 0 {
        AcPlain(x, ac, z, k + 1, r + 1);
      } else {
        AcPlain(x, ac, z, k + 1, 0);
        SymbolPlain(x, ac, ZRL);
        ValuePlain(x, ac, r % 16, z[k]);
        var a, b, c := Zrls(Ac(ac), r / 16), ValueTokens(Ac(ac), r % 16, z[k]), AcTokens(ac, z, k + 1, 0);
        PlainConcat(x, b, c);
        PlainConcat(x, a, b + c);
      }
    }
  }

  lemma {:induction false} SymbolPlain(x: Tables, ac: nat, s: nat)
    requires ac < |x.ac| && s < 256 && s % 16 <= 10
    ensures Plain(x, Sym(Ac(ac), s))
  {
  }

  lemma {:induction false} ValuePlain(x: Tables, ac: nat, r: nat, v: int)
    requires ac < |x.ac| && r <= 15 && NBits(Abs(v)) <= MAX_COEF_BITS
    ensures AllPlain(x, ValueTokens(Ac(ac), r, v))
  {
    hide MagnitudeBits, NBits, Pow2;
  }

  lemma {:induction false} UnitPlain(x: Tables, u: Unit, last: int)
    requires |u.z| == 64 && u.dc < |x.dc| && u.ac < |x.ac| && BlockInRange(u, last)
    ensures AllPlain(x, BlockTokens(u, last))
  {
    AcPlain(x, u.ac, u.z, 1, 0);
    hide MagnitudeBits, NBits, Pow2, AcTokens;
    PlainConcat(x, D.DiffTokens(Dc(u.dc), u.z[0] - last), AcTokens(u.ac, u.z, 1, 0));
  }

  lemma {:induction false} McuPlain(x: Tables, pred: seq<int>, mcu: seq<Unit>)
    requires McuOk(x, |pred|, mcu) && McuInRange(x, pred, mcu)
    ensures AllPlain(x, McuTokens(x, pred, mcu))
    decreases |mcu|
  {
    hide BlockTokens, Plain, BlockInRange;
    if mcu != [] {
      var u := mcu[0];
      assert UnitOk(x, |pred|, u);
      UnitPlain(x, u, pred[u.ci]);
      McuPlain(x, pred[u.ci := u.z[0]], mcu[1..]);
      PlainConcat(x, BlockTokens(u, pred[u.ci]), McuTokens(x, pred[u.ci := u.z[0]], mcu[1..]));
    }
  }

  lemma {:induction false} ScanPlain(x: Tables, pred: seq<int>, evs: seq<Event<seq<Unit>>>)
    requires EventsFit(x, |pred|, evs) && ScanInRange(x, pred, evs)
    ensures AllPlain(x, ScanTokens(x, pred, evs))
    decreases |evs|
  {
    hide McuTokens, McuOk, McuInRange, PredAfter, NoPred, Plain;
    if evs != [] {
      assert EventOk(x, |pred|, evs[0]);
      if evs[0].Restart? {
        ScanPlain(x, NoPred(|pred|), evs[1..]);
      } else {
        McuPlain(x, pred, evs[0].x);
        ScanPlain(x, PredAfter(x, pred, evs[0].x), evs[1..]);
        PlainConcat(x, McuTokens(x, pred, evs[0].x), ScanTokens(x, PredAfter(x, pred, evs[0].x), evs[1..]));
      }
    }
  }

  lemma {:induction false} PassPlain(x: Tables, comps: nat, mcus: seq<seq<Unit>>, interval: nat)
    requires UnitsFit(x, comps, mcus) && PassInRange(x, comps, mcus, interval)
    ensures AllPlain(x, PassTokens(x, comps, mcus, interval)) && AllEmitted(PassTokens(x, comps, mcus, interval))
  {
    RestartsFit(x, comps, mcus, interval, interval, 0);
    ScanPlain(x, NoPred(comps), WithRestarts(mcus, interval, interval, 0));
    hide ScanTokens, WithRestarts, EventsFit, UnitsFit;
    var ts := PassTokens(x, comps, mcus, interval);
    forall i | 0 <= i < |ts|
      ensures Emitted(ts[i])
    {
      assert Plain(x, ts[i]);
    }
  }

  /** Tables that serve the symbols of a scan, such as jpeg_gen_optimal_table makes
      them from its statistics, leave no symbol without a code. */
  lemma {:induction false} OptimisedIsCodable(x: Tables, comps: nat, mcus: seq<seq<Unit>>, interval: nat)
    requires AllMcusOk(x, comps, mcus) && UnitsFit(x, comps, mcus) && PassInRange(x, comps, mcus, interval)
    requires ServesAll(x.dc, x.ac, PassTokens(x, comps, mcus, interval))
    ensures PassCodable(x, comps, mcus, interval)
  {
    var ts := PassTokens(x, comps, mcus, interval);
    PassPlain(x, comps, mcus, interval);
    hide Serves, UsedBy, ScanTokens, PassInRange, PassTokens, PassCodable, WithRestarts, EventsFit, UnitsFit;
    forall i | 0 <= i < |ts| ensures Writable(x, ts[i]) {
      assert Plain(x, ts[i]);
      if ts[i].Sym? {
        CodeExists(x, ts, i);
      }
    }
    CountedIsCodable(x, comps, mcus, interval);
  }

  /** Each table serves exactly the symbols that a token stream takes from it. */
  ghost predicate ServesAll(dc: seq<HuffTbl>, ac: seq<HuffTbl>, ts: seq<Token>) {
    && (forall no :: 0 <= no < |dc| ==> Serves(dc[no], UsedBy(ts, Dc(no))))
    && (forall no :: 0 <= no < |ac| ==> Serves(ac[no], UsedBy(ts, Ac(no))))
  }

  lemma {:induction false} CodeExists(x: Tables, ts: seq<Token>, i: nat)
    requires TablesOk(x) && i < |ts| && ts[i].Sym? && Plain(x, ts[i])
    requires var tbl := ts[i].tbl; if tbl.Dc? then Serves(x.dc[tbl.no], UsedBy(ts, tbl)) else Serves(x.ac[tbl.no], UsedBy(ts, tbl))
    ensures Writable(x, ts[i])
  {
    hide Serves, Legal, Encodes;
    var tbl, s := ts[i].tbl, ts[i].s;
    if tbl.Dc? {
      assert TableOk(x.dc[tbl.no], true, x.dcc[tbl.no]);
      UsedHaveCodes(x.dc[tbl.no], UsedBy(ts, tbl), x.dcc[tbl.no].ehufco, x.dcc[tbl.no].ehufsi, s);
    } else {
      assert TableOk(x.ac[tbl.no], false, x.acc[tbl.no]);
      UsedHaveCodes(x.ac[tbl.no], UsedBy(ts, tbl), x.acc[tbl.no].ehufco, x.acc[tbl.no].ehufsi, s);
    }
  }

  // ----- gathering, table making and encoding in one -----

  /** Before optimisation only the number of tables is known. */
  function Unmade(dcs: nat, acs: nat): Tables {
    Tables(seq(dcs, _ => HuffTbl([], [])), seq(acs, _ => HuffTbl([], [])), [], [])
  }

  lemma {:induction false} SameMcu(x: Tables, y: Tables, pred: seq<int>, mcu: seq<Unit>)
    requires McuOk(x, |pred|, mcu) && McuOk(y, |pred|, mcu)
    ensures McuTokens(x, pred, mcu) == McuTokens(y, pred, mcu) && PredAfter(x, pred, mcu) == PredAfter(y, pred, mcu)
    ensures McuInRange(x, pred, mcu) <==> McuInRange(y, pred, mcu)
    decreases |mcu|
  {
    hide BlockTokens, BlockInRange;
    if mcu != [] {
      assert UnitOk(x, |pred|, mcu[0]);
      SameMcu(x, y, pred[mcu[0].ci := mcu[0].z[0]], mcu[1..]);
    }
  }

  /** What is emitted does not depend on the tables it will be coded with. */
  lemma {:induction false} SameScan(x: Tables, y: Tables, pred: seq<int>, evs: seq<Event<seq<Unit>>>)
    requires EventsFit(x, |pred|, evs) && EventsFit(y, |pred|, evs)
    ensures ScanTokens(x, pred, evs) == ScanTokens(y, pred, evs) && (ScanInRange(x, pred, evs) <==> ScanInRange(y, pred, evs))
    decreases |evs|
  {
    hide McuTokens, McuOk, McuInRange, PredAfter, NoPred;
    if evs != [] {
      assert EventOk(x, |pred|, evs[0]) && EventOk(y, |pred|, evs[0]);
      if evs[0].Restart? {
        SameScan(x, y, NoPred(|pred|), evs[1..]);
      } else {
        SameMcu(x, y, pred, evs[0].x);
        SameScan(x, y, PredAfter(x, pred, evs[0].x), evs[1..]);
      }
    }
  }

  lemma {:induction false} SamePass(x: Tables, y: Tables, comps: nat, mcus: seq<seq<Unit>>, interval: nat)
    requires UnitsFit(x, comps, mcus) && UnitsFit(y, comps, mcus)
    ensures PassTokens(x, comps, mcus, interval) == PassTokens(y, comps, mcus, interval)
    ensures PassInRange(x, comps, mcus, interval) <==> PassInRange(y, comps, mcus, interval)
  {
    RestartsFit(x, comps, mcus, interval, interval, 0);
    RestartsFit(y, comps, mcus, interval, interval, 0);
    SameScan(x, y, NoPred(comps), WithRestarts(mcus, interval, interval, 0));
    hide ScanTokens, ScanInRange, WithRestarts, EventsFit;
  }

  /** A least-cost code for the counts has a code size above 32. */
  ghost predicate Overlong(ts: seq<Token>, tbl: Table) {
    exists cs: seq<nat>, tree: Tree :: LongCode(ts, tbl, cs, tree)
  }

  ghost predicate LongCode(ts: seq<Token>, tbl: Table, cs: seq<nat>, tree: Tree) {
    |cs| == SYMBOLS && LeastCost(FreqOf(ts, tbl)[PSEUDO := 1], cs, tree) && !AllWithin(cs)
  }

  function TableNo(isDC: bool, no: nat): Table {
    if isDC then Dc(no) else Ac(no)
  }

  /** The DC or the AC tables of a scan, made from its counters. */
  method MakeTables(counts: map<Token, nat>, isDC: bool, n: nat, ghost ts: seq<Token>) returns (ok: bool, tables: seq<HuffTbl>)
    requires Counts(counts, ts) && AllEmitted(ts) && |ts| < 1_000_000_000
    requires forall no :: 0 <= no < n ==> UsedBy(ts, TableNo(isDC, no)) != {}
    ensures !ok ==> exists no :: 0 <= no < n && Overlong(ts, TableNo(isDC, no))
    ensures ok ==> |tables| == n && forall no :: 0 <= no < n ==> Optimal(tables[no], ts, TableNo(isDC, no))
  {
    hide Counts, AllEmitted, UsedBy, Serves, LeastCost, AllWithin, FreqOf, Optimal, MadeFrom;
    tables := [];
    for no := 0 to n
      invariant |tables| == no
      invariant forall k :: 0 <= k < no ==> Optimal(tables[k], ts, TableNo(isDC, k))
    {
      var t;
      ghost var tree, cs;
      ok, t, tree, cs := MakeTable(counts, TableNo(isDC, no), ts);
      if !ok {
        assert LongCode(ts, TableNo(isDC, no), cs, tree);
        return;
      }
      tables := tables + [t];
    }
    ok := true;
  }

  /** Tables that serve emitted symbols are legal, the DC tables as DC tables. */
  lemma {:induction false} ServedLegal(dc: seq<HuffTbl>, ac: seq<HuffTbl>, ts: seq<Token>)
    requires ServesAll(dc, ac, ts) && AllEmitted(ts)
    ensures forall no :: 0 <= no < |dc| ==> Legal(dc[no], true)
    ensures forall no :: 0 <= no < |ac| ==> Legal(ac[no], false)
    ensures (forall no :: 0 <= no < |dc| ==> Shape(dc[no])) && (forall no :: 0 <= no < |ac| ==> Shape(ac[no]))
  {
    hide AllEmitted, UsedBy, Kraft, Total, Distinct, SymbolsUpTo;
    forall no | 0 <= no < |dc|
      ensures Legal(dc[no], true)
    {
      SmallSet(ts, Dc(no));
      ServesIsLegal(dc[no], UsedBy(ts, Dc(no)), true);
    }
    forall no | 0 <= no < |ac|
      ensures Legal(ac[no], false)
    {
      SmallSet(ts, Ac(no));
      ServesIsLegal(ac[no], UsedBy(ts, Ac(no)), false);
    }
  }

  /** The scan uses every table, and emits fewer tokens than the merge loop's bound on counts. */
  ghost predicate Enough(comps: nat, dcs: nat, acs: nat, interval: nat, mcus: seq<seq<Ref>>, order: seq<nat>)
    requires AllFit(mcus, order) && forall i :: 0 <= i < |mcus| ==> RefsFit(Unmade(dcs, acs), comps, mcus[i], order)
    reads set i, j | 0 <= i < |mcus| && 0 <= j < |mcus[i]| :: mcus[i][j].block
  {
    UnitsFitAll(Unmade(dcs, acs), comps, mcus, order);
    var ts := PassTokens(Unmade(dcs, acs), comps, ScanUnits(mcus, order), interval);
    && |ts| < 1_000_000_000
    && (forall no :: 0 <= no < dcs ==> UsedBy(ts, TableNo(true, no)) != {})
    && (forall no :: 0 <= no < acs ==> UsedBy(ts, TableNo(false, no)) != {})
  }

  lemma {:induction false} CountsAgree(g: Gatherer, ts: seq<Token>)
    requires forall t: Token :: t.Sym? ==> g.Count(t) == multiset(ts)[t]
    ensures Counts(g.counts, ts)
  {
    forall t: Token | t.Sym?
      ensures (if t in g.counts then g.counts[t] else 0) == multiset(ts)[t]
    {
      assert g.Count(t) == multiset(ts)[t];
    }
  }

  /** Each table comes from a least-cost code for the symbols taken from it. */
  ghost predicate AllOptimal(dc: seq<HuffTbl>, ac: seq<HuffTbl>, ts: seq<Token>) {
    && (forall no :: 0 <= no < |dc| ==> Optimal(dc[no], ts, TableNo(true, no)))
    && (forall no :: 0 <= no < |ac| ==> Optimal(ac[no], ts, TableNo(false, no)))
  }

  lemma {:induction false} AllServed(dc: seq<HuffTbl>, ac: seq<HuffTbl>, ts: seq<Token>)
    requires AllOptimal(dc, ac, ts)
    ensures ServesAll(dc, ac, ts)
  {
    hide Serves, UsedBy, Optimal;
    forall no | 0 <= no < |dc|
      ensures Serves(dc[no], UsedBy(ts, Dc(no)))
    {
      assert TableNo(true, no) == Dc(no);
      OptimalServes(dc[no], ts, Dc(no));
    }
    forall no | 0 <= no < |ac|
      ensures Serves(ac[no], UsedBy(ts, Ac(no)))
    {
      assert TableNo(false, no) == Ac(no);
      OptimalServes(ac[no], ts, Ac(no));
    }
  }

  lemma {:induction false} RefsAgain(x: Tables, y: Tables, comps: nat, mcus: seq<seq<Ref>>, order: seq<nat>)
    requires |x.dc| == |y.dc| && |x.ac| == |y.ac|
    requires forall i :: 0 <= i < |mcus| ==> RefsFit(y, comps, mcus[i], order)
    ensures forall i :: 0 <= i < |mcus| ==> RefsFit(x, comps, mcus[i], order)
  {
  }

  lemma {:induction false} UnitsAgain(x: Tables, comps: nat, us: seq<seq<Unit>>)
    requires AllMcusOk(x, comps, us)
    ensures UnitsFit(x, comps, us)
  {
  }

  datatype Optimised = OutOfRange | CodesTooLong | Coded(bytes: seq<Byte>)

  /** Both passes of optimal coding: gather, make every table, encode.  A coefficient out of
      range or a code size above 32 is the only failure; the output pass never meets a symbol
      without a code, and writes the bytes that decode to the same blocks. */
  method OptimiseThenEncode(comps: nat, dcs: nat, acs: nat, interval: nat, mcus: seq<seq<Ref>>, order: seq<nat>)
    returns (o: Optimised, ghost x: Tables)
    requires IsZigzag(order) && AllFit(mcus, order)
    requires forall i :: 0 <= i < |mcus| ==> RefsFit(Unmade(dcs, acs), comps, mcus[i], order)
    requires Enough(comps, dcs, acs, interval, mcus, order)
    ensures UnitsFit(Unmade(dcs, acs), comps, ScanUnits(mcus, order))
    ensures o.OutOfRange? <==> !PassInRange(Unmade(dcs, acs), comps, ScanUnits(mcus, order), interval)
    ensures o.CodesTooLong? ==>
      var ts := PassTokens(Unmade(dcs, acs), comps, ScanUnits(mcus, order), interval);
      exists tbl: Table :: (if tbl.Dc? then tbl.no < dcs else tbl.no < acs) && Overlong(ts, tbl)
    ensures o.Coded? ==>
      && |x.dc| == dcs && |x.ac| == acs && AllMcusOk(x, comps, ScanUnits(mcus, order))
      && AllOptimal(x.dc, x.ac, PassTokens(Unmade(dcs, acs), comps, ScanUnits(mcus, order), interval))
      && PassCodable(x, comps, ScanUnits(mcus, order), interval)
      && o.bytes == PassBytes(x, comps, ScanUnits(mcus, order), interval)
  {
    hide IsZigzag, AllFit, ScanUnits, PassInRange, PassTokens, PassCodable, PassBytes, Serves, UsedBy, NoPred, UnitsFit, RefsFit,
      Overlong, ServesAll, AllOptimal, TablesOk, AllMcusOk;
    x := Unmade(dcs, acs);
    var dc, ac;
    o, dc, ac := GatherTables(comps, dcs, acs, interval, mcus, order);
    if o.Coded? {
      var bytes;
      bytes, x := EncodeWith(dc, ac, comps, interval, mcus, order, x);
      o := Coded(bytes);
    }
  }

  /** The statistics pass. */
  method CountScan(comps: nat, dcs: nat, acs: nat, interval: nat, mcus: seq<seq<Ref>>, order: seq<nat>) returns (ok: bool, counts: map<Token, nat>)
    requires IsZigzag(order) && AllFit(mcus, order)
    requires forall i :: 0 <= i < |mcus| ==> RefsFit(Unmade(dcs, acs), comps, mcus[i], order)
    ensures UnitsFit(Unmade(dcs, acs), comps, ScanUnits(mcus, order))
    ensures ok <==> PassInRange(Unmade(dcs, acs), comps, ScanUnits(mcus, order), interval)
    ensures ok ==>
      var ts := PassTokens(Unmade(dcs, acs), comps, ScanUnits(mcus, order), interval);
      AllEmitted(ts) && Counts(counts, ts)
  {
    hide IsZigzag, AllFit, ScanUnits, PassInRange, PassTokens, AllEmitted, NoPred, UnitsFit, RefsFit, Counts, AllPlain;
    ghost var x0, us := Unmade(dcs, acs), ScanUnits(mcus, order);
    var gatherer := new Gatherer(x0, comps, interval);
    ok := gatherer.GatherScan(mcus, order);
    counts := gatherer.counts;
    if ok {
      PassPlain(x0, comps, us, interval);
      CountsAgree(gatherer, PassTokens(x0, comps, us, interval));
    }
  }

  /** The statistics pass, and a table for every slot; Coded means only that all is ready to be coded. */
  method GatherTables(comps: nat, dcs: nat, acs: nat, interval: nat, mcus: seq<seq<Ref>>, order: seq<nat>)
    returns (o: Optimised, dc: seq<HuffTbl>, ac: seq<HuffTbl>)
    requires IsZigzag(order) && AllFit(mcus, order)
    requires forall i :: 0 <= i < |mcus| ==> RefsFit(Unmade(dcs, acs), comps, mcus[i], order)
    requires Enough(comps, dcs, acs, interval, mcus, order)
    ensures UnitsFit(Unmade(dcs, acs), comps, ScanUnits(mcus, order))
    ensures o.OutOfRange? <==> !PassInRange(Unmade(dcs, acs), comps, ScanUnits(mcus, order), interval)
    ensures o.CodesTooLong? ==>
      var ts := PassTokens(Unmade(dcs, acs), comps, ScanUnits(mcus, order), interval);
      exists tbl: Table :: (if tbl.Dc? then tbl.no < dcs else tbl.no < acs) && Overlong(ts, tbl)
    ensures o.Coded? ==>
      var ts := PassTokens(Unmade(dcs, acs), comps, ScanUnits(mcus, order), interval);
      |dc| == dcs && |ac| == acs && ServesAll(dc, ac, ts) && AllOptimal(dc, ac, ts)
  {
    hide IsZigzag, AllFit, ScanUnits, PassInRange, PassTokens, Serves, UsedBy, AllEmitted, UnitsFit, RefsFit, Overlong, ServesAll, Counts, Optimal;
    dc, ac := [], [];
    var ok, counts := CountScan(comps, dcs, acs, interval, mcus, order);
    if !ok {
      return OutOfRange, dc, ac;
    }
    ghost var ts := PassTokens(Unmade(dcs, acs), comps, ScanUnits(mcus, order), interval);
    ok, dc := MakeTables(counts, true, dcs, ts);
    if ok {
      ok, ac := MakeTables(counts, false, acs, ts);
    }
    if !ok {
      return CodesTooLong, dc, ac;
    }
    AllServed(dc, ac, ts);
    o := Coded([]);
  }

  /** The output pass with tables that serve the scan. */
  method EncodeWith(dc: seq<HuffTbl>, ac: seq<HuffTbl>, comps: nat, interval: nat, mcus: seq<seq<Ref>>, order: seq<nat>, ghost x0: Tables)
    returns (bytes: seq<Byte>, ghost x: Tables)
    requires IsZigzag(order) && AllFit(mcus, order) && |x0.dc| == |dc| && |x0.ac| == |ac|
    requires forall i :: 0 <= i < |mcus| ==> RefsFit(x0, comps, mcus[i], order)
    requires UnitsFit(x0, comps, ScanUnits(mcus, order)) && PassInRange(x0, comps, ScanUnits(mcus, order), interval)
    requires ServesAll(dc, ac, PassTokens(x0, comps, ScanUnits(mcus, order), interval))
    ensures x.dc == dc && x.ac == ac && AllMcusOk(x, comps, ScanUnits(mcus, order))
    ensures PassCodable(x, comps, ScanUnits(mcus, order), interval)
    ensures bytes == PassBytes(x, comps, ScanUnits(mcus, order), interval)
  {
    hide IsZigzag, AllFit, ScanUnits, PassInRange, PassTokens, PassCodable, PassBytes, Serves, UsedBy, AllEmitted,
      Legal, Shape, NoPred, UnitsFit, RefsFit, ServesAll, TablesOk, AllPlain, AllMcusOk, Flat;
    ghost var us := ScanUnits(mcus, order);
    PassPlain(x0, comps, us, interval);
    ServedLegal(dc, ac, PassTokens(x0, comps, us, interval));
    var ok, t, dts, ats := RT.DeriveAll(dc, ac);
    x := t;
    RefsAgain(t, x0, comps, mcus, order);
    var encoder := new Encoder(t, comps, interval);
    ok := encoder.EncodeScan(mcus, order);
    UnitsAgain(t, comps, us);
    SamePass(t, x0, comps, us, interval);
    OptimisedIsCodable(t, comps, us, interval);
    bytes := encoder.writer.out;
  }
}
