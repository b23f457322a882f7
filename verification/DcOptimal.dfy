// Optimal coding of a progressive DC scan: statistics pass, one table for each table number of
// its components, output pass, bytes.  A refinement scan needs no table.
module DcOptimal {
  import opened Arith
  import opened Coefficients
  import opened Tokens
  import opened DcScan
  import opened HuffmanCodes
  import opened DerivedTables
  import opened CodeSizes
  import opened OptimalTable
  import opened SymbolStatistics
  import opened SequentialScan
  import opened TokenBytes
  import opened OptimalCoding
  import E = DcEncoder
  import RT = SequentialRoundTrip

  // ----- what a DC scan emits -----

  predicate Uses(b: DcBand, tbl: Table) {
    tbl.Dc? && tbl.no in b.tbls
  }

  /** A bit count from a table of the scan, bits that fit, or one of the restart markers. */
  predicate DcToken(b: DcBand, t: Token) {
    match t
    case Sym(tbl, s) => b.ah == 0 && Uses(b, tbl) && s <= MAX_COEF_BITS + 1
    case Bits(v, n) => 1 <= n <= 16 && v < Pow2(n)
    case Rst(num) => num < 8
  }

  ghost predicate AllDc(b: DcBand, ts: seq<Token>) {
    forall i :: 0 <= i < |ts| ==> DcToken(b, ts[i])
  }

  lemma {:induction false} DcConcat(b: DcBand, x: seq<Token>, y: seq<Token>)
    requires AllDc(b, x) && AllDc(b, y)
    ensures AllDc(b, x + y)
  {
    hide DcToken;
  }

  lemma {:induction false} DiffIsDc(b: DcBand, tbl: Table, diff: int)
    requires b.ah == 0 && Uses(b, tbl) && NBits(Abs(diff)) <= MAX_COEF_BITS + 1
    ensures AllDc(b, DiffTokens(tbl, diff))
  {
    hide Pow2, NBits, MagnitudeBits;
  }

  lemma {:induction false} FirstIsDc(b: DcBand, pred: seq<int>, mcu: seq<Visit>)
    requires b.ah == 0 && VisitsOk(b, mcu) && |pred| == |b.tbls| && E.DiffsFit(b, pred, mcu)
    ensures AllDc(b, FirstTokens(b, pred, mcu))
    decreases |mcu|
  {
    hide DiffTokens, DcPoint, NBits, DcToken;
    if mcu != [] {
      var y := mcu[0];
      var t := DcPoint(y.v, b.al);
      DiffIsDc(b, Dc(b.tbls[y.ci]), t - pred[y.ci]);
      FirstIsDc(b, pred[y.ci := t], mcu[1..]);
      DcConcat(b, DiffTokens(Dc(b.tbls[y.ci]), t - pred[y.ci]), FirstTokens(b, pred[y.ci := t], mcu[1..]));
    }
  }

  lemma {:induction false} McuIsDc(b: DcBand, pred: seq<int>, mcu: seq<Visit>)
    requires VisitsOk(b, mcu) && |pred| == |b.tbls| && (b.ah == 0 ==> E.DiffsFit(b, pred, mcu))
    ensures AllDc(b, DcScan.McuTokens(b, pred, mcu))
  {
    if b.ah == 0 {
      FirstIsDc(b, pred, mcu);
      hide DcToken, FirstTokens;
    } else {
      assert Pow2(1) == 2;
      hide Pow2;
    }
  }

  /** The tokens of MCUs whose differences are all in range. */
  lemma {:induction false} ScanIsDc(b: DcBand, pred: seq<int>, mcus: seq<seq<Visit>>, interval: nat, togo: nat, num: nat)
    requires E.AllVisitsOk(b, mcus) && |pred| == |b.tbls| && num < 8 && E.DiffsFitFrom(b, pred, mcus, interval, togo)
    ensures VisitEventsOk(b, WithRestarts(mcus, interval, togo, num))
    ensures AllDc(b, ScanTokens(b, pred, WithRestarts(mcus, interval, togo, num)))
    decreases |mcus|
  {
    hide VisitsOk, E.DiffsFit, E.DiffsFitFrom, DcScan.McuTokens, McuPred, ScanTokens, NoPred, WithRestarts;
    VisitsWithRestarts(b, mcus, interval, togo, num);
    if mcus == [] {
      E.NothingAhead(b, pred, interval, togo, num);
    } else {
      assert VisitsOk(b, mcus[0]);
      var due := interval > 0 && togo == 0;
      var pred0, num1 := if due then NoPred(b) else pred, if due then (num + 1) % 8 else num;
      E.DiffsFitStep(b, pred, mcus, interval, togo);
      E.McuAhead(b, [], pred, mcus, interval, togo, num);
      McuIsDc(b, pred0, mcus[0]);
      ScanIsDc(b, McuPred(b, pred0, mcus[0]), mcus[1..], interval, TogoAfter(interval, togo), num1);
      var evs := WithRestarts(mcus, interval, togo, num);
      var evs1 := WithRestarts(mcus[1..], interval, TogoAfter(interval, togo), num1);
      var first := (if due then [] + [Rst(num)] else []) + DcScan.McuTokens(b, pred0, mcus[0]);
      DcConcat(b, if due then [] + [Rst(num)] else [], DcScan.McuTokens(b, pred0, mcus[0]));
      DcConcat(b, first, ScanTokens(b, McuPred(b, pred0, mcus[0]), evs1));
      assert [] + ScanTokens(b, pred, evs) == ScanTokens(b, pred, evs);
    }
  }

  // ----- every table is used -----

  /** Every component of the scan has a block in it. */
  ghost predicate Seen(b: DcBand, mcus: seq<seq<Visit>>) {
    forall c :: 0 <= c < |b.tbls| ==> SomewhereIn(mcus, c)
  }

  ghost predicate SomewhereIn(mcus: seq<seq<Visit>>, c: nat) {
    exists i :: 0 <= i < |mcus| && Visits(mcus[i], c)
  }

  predicate Visits(mcu: seq<Visit>, c: nat) {
    exists j :: 0 <= j < |mcu| && mcu[j].ci == c
  }

  ghost predicate Counted(ts: seq<Token>, tbl: Table) {
    exists i :: 0 <= i < |ts| && ts[i].Sym? && ts[i].tbl == tbl
  }

  lemma {:induction false} CountedConcat(x: seq<Token>, y: seq<Token>, tbl: Table)
    requires Counted(x, tbl) || Counted(y, tbl)
    ensures Counted(x + y, tbl)
  {
    if Counted(x, tbl) {
      var i :| 0 <= i < |x| && x[i].Sym? && x[i].tbl == tbl;
      assert (x + y)[i] == x[i];
    } else {
      var i :| 0 <= i < |y| && y[i].Sym? && y[i].tbl == tbl;
      assert (x + y)[|x| + i] == y[i];
    }
  }

  lemma {:induction false} McuCounts(b: DcBand, pred: seq<int>, mcu: seq<Visit>, c: nat)
    requires VisitsOk(b, mcu) && |pred| == |b.tbls| && Visits(mcu, c) && c < |b.tbls|
    ensures Counted(FirstTokens(b, pred, mcu), Dc(b.tbls[c]))
    decreases |mcu|
  {
    hide DcPoint;
    var y := mcu[0];
    var t := DcPoint(y.v, b.al);
    var first, later := DiffTokens(Dc(b.tbls[y.ci]), t - pred[y.ci]), FirstTokens(b, pred[y.ci := t], mcu[1..]);
    if y.ci == c {
      assert first[0].tbl == Dc(b.tbls[c]);
      hide DiffTokens;
    } else {
      var j :| 0 <= j < |mcu| && mcu[j].ci == c;
      assert mcu[1..][j - 1].ci == c;
      McuCounts(b, pred[y.ci := t], mcu[1..], c);
      hide DiffTokens;
    }
    CountedConcat(first, later, Dc(b.tbls[c]));
  }

  lemma {:induction false} ScanCounts(b: DcBand, pred: seq<int>, mcus: seq<seq<Visit>>, interval: nat, togo: nat, num: nat, i: nat, c: nat)
    requires E.AllVisitsOk(b, mcus) && |pred| == |b.tbls| && b.ah == 0
    requires i < |mcus| && Visits(mcus[i], c) && c < |b.tbls|
    ensures VisitEventsOk(b, WithRestarts(mcus, interval, togo, num))
    ensures Counted(ScanTokens(b, pred, WithRestarts(mcus, interval, togo, num)), Dc(b.tbls[c]))
    decreases |mcus|
  {
    hide VisitsOk, McuPred, ScanTokens, NoPred, WithRestarts, Visits, FirstTokens, RefineTokens, Counted;
    VisitsWithRestarts(b, mcus, interval, togo, num);
    assert VisitsOk(b, mcus[0]);
    var due := interval > 0 && togo == 0;
    var pred0, num1 := if due then NoPred(b) else pred, if due then (num + 1) % 8 else num;
    E.McuAhead(b, [], pred, mcus, interval, togo, num);
    var evs := WithRestarts(mcus, interval, togo, num);
    var evs1 := WithRestarts(mcus[1..], interval, TogoAfter(interval, togo), num1);
    var front, mid, later := if due then [] + [Rst(num)] else [], DcScan.McuTokens(b, pred0, mcus[0]), ScanTokens(b, McuPred(b, pred0, mcus[0]), evs1);
    var tbl := Dc(b.tbls[c]);
    if i == 0 {
      McuCounts(b, pred0, mcus[0], c);
      CountedConcat(front, mid, tbl);
    } else {
      ScanCounts(b, McuPred(b, pred0, mcus[0]), mcus[1..], interval, TogoAfter(interval, togo), num1, i - 1, c);
    }
    CountedConcat(front + mid, later, tbl);
    assert [] + ScanTokens(b, pred, evs) == ScanTokens(b, pred, evs);
  }

  lemma {:induction false} PassIsDc(b: DcBand, mcus: seq<seq<Visit>>, interval: nat)
    requires E.AllVisitsOk(b, mcus) && E.DiffsFitFrom(b, NoPred(b), mcus, interval, interval)
    ensures AllDc(b, PassTokens(b, mcus, interval)) && AllEmitted(PassTokens(b, mcus, interval))
    ensures forall i :: var ts := PassTokens(b, mcus, interval); 0 <= i < |ts| && ts[i].Bits? ==> 1 <= ts[i].n <= 16
  {
    ScanIsDc(b, NoPred(b), mcus, interval, interval, 0);
    hide E.DiffsFitFrom, ScanTokens, WithRestarts, NoPred, Pow2;
    var ts := PassTokens(b, mcus, interval);
    forall i | 0 <= i < |ts| ensures Emitted(ts[i]) && (ts[i].Bits? ==> 1 <= ts[i].n <= 16) {
      assert DcToken(b, ts[i]);
    }
  }

  lemma {:induction false} PassUses(b: DcBand, mcus: seq<seq<Visit>>, interval: nat)
    requires E.AllVisitsOk(b, mcus) && b.ah == 0 && Seen(b, mcus)
    ensures forall no :: no in b.tbls ==> UsedBy(PassTokens(b, mcus, interval), Dc(no)) != {}
  {
    hide ScanTokens, WithRestarts, NoPred, VisitsOk, Visits;
    forall no | no in b.tbls ensures UsedBy(PassTokens(b, mcus, interval), Dc(no)) != {} {
      var c :| 0 <= c < |b.tbls| && b.tbls[c] == no;
      assert SomewhereIn(mcus, c);
      var i :| 0 <= i < |mcus| && Visits(mcus[i], c);
      ScanCounts(b, NoPred(b), mcus, interval, interval, 0, i, c);
      var ts := PassTokens(b, mcus, interval);
      var k :| 0 <= k < |ts| && ts[k].Sym? && ts[k].tbl == Dc(no);
      assert ts[k].s in UsedBy(ts, Dc(no));
    }
  }

  // ----- the tables -----

  /** Every table made so far is optimal. */
  ghost predicate MadeWell(made: map<nat, HuffTbl>, ts: seq<Token>) {
    forall no :: no in made ==> Optimal(made[no], ts, Dc(no))
  }

  /** finish_pass_gather_phuff: a table for each table number of the components, none twice. */
  method FinishPass(counts: map<Token, nat>, tbls: seq<nat>, ghost ts: seq<Token>) returns (ok: bool, made: map<nat, HuffTbl>)
    requires Counts(counts, ts) && AllEmitted(ts) && |ts| < 1_000_000_000
    requires forall no :: no in tbls ==> UsedBy(ts, Dc(no)) != {}
    ensures !ok ==> exists no :: no in tbls && Overlong(ts, Dc(no))
    ensures ok ==> MadeWell(made, ts) && forall no :: no in made <==> no in tbls
  {
    hide Counts, AllEmitted, UsedBy, Serves, LeastCost, AllWithin, FreqOf, Optimal, MadeFrom;
    made := map[];
    var ci := 0;
    while ci < |tbls|
      invariant 0 <= ci <= |tbls| && MadeWell(made, ts)
      invariant forall no :: no in made <==> no in tbls[..ci]
    {
      var no := tbls[ci];
      assert no in tbls && tbls[..ci + 1] == tbls[..ci] + [no];
      if no !in made {
        var t;
        ghost var tree, cs;
        ok, t, tree, cs := MakeTable(counts, Dc(no), ts);
        if !ok {
          assert LongCode(ts, Dc(no), cs, tree);
          return;
        }
        made := made[no := t];
      }
      ci := ci + 1;
    }
    assert tbls[..ci] == tbls;
    ok := true;
  }

  function Top(tbls: seq<nat>): (n: nat)
    ensures forall no :: no in tbls ==> no < n
  {
    if tbls == [] then 0
    else
      var n := Top(tbls[1..]);
      assert forall no :: no in tbls ==> no == tbls[0] || no in tbls[1..];
      if tbls[0] < n then n else tbls[0] + 1
  }

  /** The table slots; those of no component are filled with some table of the scan. */
  function InSlots(tbls: seq<nat>, made: map<nat, HuffTbl>): (dc: seq<HuffTbl>)
    requires tbls != [] && forall no :: no in tbls ==> no in made
    ensures forall no :: no in tbls ==> no < |dc| && dc[no] == made[no]
    ensures forall i :: 0 <= i < |dc| ==> exists no :: no in tbls && dc[i] == made[no]
  {
    seq(Top(tbls), i requires 0 <= i < Top(tbls) => if i in tbls then made[i] else made[tbls[0]])
  }

  lemma {:induction false} SlotsLegal(tbls: seq<nat>, made: map<nat, HuffTbl>, ts: seq<Token>)
    requires tbls != [] && (forall no :: no in tbls ==> no in made) && MadeWell(made, ts) && AllEmitted(ts)
    ensures forall i :: 0 <= i < |InSlots(tbls, made)| ==> Shape(InSlots(tbls, made)[i]) && Legal(InSlots(tbls, made)[i], true)
  {
    hide AllEmitted, UsedBy, Serves, Legal, Shape, Optimal;
    var dc := InSlots(tbls, made);
    hide InSlots;
    forall i | 0 <= i < |dc| ensures Shape(dc[i]) && Legal(dc[i], true) {
      var no :| no in tbls && dc[i] == made[no];
      OptimalServes(made[no], ts, Dc(no));
      SmallSet(ts, Dc(no));
      ServesIsLegal(made[no], UsedBy(ts, Dc(no)), true);
      ServesShape(made[no], UsedBy(ts, Dc(no)));
    }
  }

  lemma {:induction false} ServesShape(t: HuffTbl, used: set<nat>)
    requires Serves(t, used)
    ensures Shape(t)
  {
    hide Kraft, Total;
  }

  /** Tables made from a scan's statistics leave none of its symbols without a code. */
  lemma {:induction false} MadeSendable(x: Tables, b: DcBand, made: map<nat, HuffTbl>, ts: seq<Token>)
    requires TablesOk(x) && AllDc(b, ts) && MadeWell(made, ts)
    requires b.ah == 0 ==> forall no :: no in b.tbls ==> no in made && no < |x.dc| && x.dc[no] == made[no]
    ensures AllSendable(x, ts)
  {
    hide Serves, Legal, Encodes, Total, Pow2, Optimal, UsedBy;
    forall i | 0 <= i < |ts|
      ensures Sendable(x, ts[i])
    {
      assert DcToken(b, ts[i]);
      if ts[i].Sym? {
        var no := ts[i].tbl.no;
        assert TableOk(x.dc[no], true, x.dcc[no]) && Optimal(made[no], ts, Dc(no));
        OptimalServes(made[no], ts, Dc(no));
        UsedHaveCodes(x.dc[no], UsedBy(ts, Dc(no)), x.dcc[no].ehufco, x.dcc[no].ehufsi, ts[i].s);
      }
    }
  }

  // ----- both passes -----

  /** The statistics pass and the output pass. */
  method CountThenEncode(b: DcBand, interval: nat, mcus: seq<seq<Visit>>) returns (ok: bool, counts: map<Token, nat>, out: seq<Token>)
    requires E.AllVisitsOk(b, mcus)
    ensures ok <==> E.DiffsFitFrom(b, NoPred(b), mcus, interval, interval)
    ensures ok ==> out == PassTokens(b, mcus, interval) && Counts(counts, out)
  {
    hide E.DiffsFitFrom, PassTokens, NoPred;
    var statistics := new E.Encoder(b, true, interval);
    ok := statistics.EncodeScan(mcus);
    counts, out := statistics.counts, [];
    if ok {
      CountsAgree(statistics);
      var output := new E.Encoder(b, false, interval);
      ok := output.EncodeScan(mcus);
      out := output.out;
    }
  }

  lemma {:induction false} CountsAgree(e: E.Encoder)
    requires e.Ledger() && e.gather
    ensures Counts(e.counts, e.log)
  {
    forall t: Token | t.Sym?
      ensures (if t in e.counts then e.counts[t] else 0) == multiset(e.log)[t]
    {
      assert e.Count(t) == multiset(e.log)[t];
    }
  }

  /** Both passes over a DC scan.  A difference out of range in a first scan, or a code size
      above 32, is the only failure; otherwise every symbol has a code from an optimal table, and
      the bytes are those of the scan, from which it decodes (DcBits.PassDecodes). */
  method OptimiseThenSend(b: DcBand, interval: nat, mcus: seq<seq<Visit>>) returns (o: Optimised, x: Tables)
    requires E.AllVisitsOk(b, mcus) && b.tbls != [] && (b.ah == 0 ==> Seen(b, mcus))
    requires |PassTokens(b, mcus, interval)| < 1_000_000_000
    ensures o.OutOfRange? <==> !E.DiffsFitFrom(b, NoPred(b), mcus, interval, interval)
    ensures o.CodesTooLong? ==> b.ah == 0 && exists no :: no in b.tbls && Overlong(PassTokens(b, mcus, interval), Dc(no))
    ensures o.Coded? ==>
      var ts := PassTokens(b, mcus, interval);
      && (b.ah == 0 ==> forall no :: no in b.tbls ==> no < |x.dc| && Optimal(x.dc[no], ts, Dc(no)))
      && TablesOk(x) && AllSendable(x, ts) && o.bytes == StreamBytes(x, [], ts)
  {
    hide E.DiffsFitFrom, E.AllVisitsOk, PassTokens, NoPred, Seen, Overlong, Optimal, AllDc, AllEmitted, UsedBy, TablesOk, AllSendable,
      StreamBytes, Counts, MadeWell, Shape, Legal;
    x := Tables([], [], [], []);
    var ok, counts, out := CountThenEncode(b, interval, mcus);
    if !ok {
      return OutOfRange, x;
    }
    PassIsDc(b, mcus, interval);
    var made: map<nat, HuffTbl> := map[];
    if b.ah == 0 {
      PassUses(b, mcus, interval);
      ok, made := FinishPass(counts, b.tbls, out);
      if !ok {
        return CodesTooLong, x;
      }
      x := Derive(b.tbls, made, out);
    } else {
      NoTables(out);
    }
    MadeSendable(x, b, made, out);
    var bytes := Send(x, out);
    o := Coded(bytes);
  }

  lemma {:induction false} NoTables(ts: seq<Token>)
    ensures TablesOk(Tables([], [], [], [])) && MadeWell(map[], ts)
  {
  }

  method Derive(tbls: seq<nat>, made: map<nat, HuffTbl>, ghost ts: seq<Token>) returns (x: Tables)
    requires tbls != [] && (forall no :: no in tbls ==> no in made) && MadeWell(made, ts) && AllEmitted(ts)
    ensures TablesOk(x) && forall no :: no in tbls ==> no < |x.dc| && x.dc[no] == made[no] && Optimal(x.dc[no], ts, Dc(no))
  {
    hide Optimal, AllEmitted, Shape, Legal, TablesOk;
    SlotsLegal(tbls, made, ts);
    var dc := InSlots(tbls, made);
    var ok, t, dts, ats := RT.DeriveAll(dc, []);
    x := t;
  }
}
