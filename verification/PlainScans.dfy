// Whole scans written down by position: which difference each DC term is sent as, where the
// restart markers stand, and what bytes that makes. No prediction is carried along here: the
// block a difference refers to is looked up among the blocks before it.
module PlainScans {
  import opened Arith
  import opened BitStrings
  import opened BitPacking
  import opened Coefficients
  import opened Tokens
  import opened PlainCodes
  import opened AcRefine
  import D = DcScan
  import E = DcEncoder
  import AC = AcScan
  import F = AcFirst
  import SC = SequentialScan
  import ST = SequentialStream
  import B = TokenBytes
  import W = BitWriter

  // ----- what a DC term is predicted from -----

  /** The value of the nearest block of component ci before block k of MCU m, back to the last
      restart or the start of the scan; 0 if there is none. */
  function Earlier(dcs: seq<seq<D.Visit>>, interval: nat, m: nat, k: nat, ci: nat): int
    requires m < |dcs| && k <= |dcs[m]|
    decreases m, k
  {
    if k > 0 then if dcs[m][k - 1].ci == ci then dcs[m][k - 1].v else Earlier(dcs, interval, m, k - 1, ci)
    else if m == 0 || Marked(interval, m) then 0
    else Earlier(dcs, interval, m - 1, |dcs[m - 1]|, ci)
  }

  // The predictions a coder holds before block k of MCU m.
  ghost predicate Held(dcs: seq<seq<D.Visit>>, interval: nat, m: nat, k: nat, pred: seq<int>)
    requires m < |dcs| && k <= |dcs[m]|
  {
    forall ci: nat :: ci < |pred| ==> pred[ci] == Earlier(dcs, interval, m, k, ci)
  }

  lemma {:induction false} HeldAt(dcs: seq<seq<D.Visit>>, interval: nat, m: nat, k: nat, pred: seq<int>, ci: nat)
    requires m < |dcs| && k <= |dcs[m]| && ci < |pred| && Held(dcs, interval, m, k, pred)
    ensures pred[ci] == Earlier(dcs, interval, m, k, ci)
  {
  }

  lemma {:induction false} HeldNext(dcs: seq<seq<D.Visit>>, interval: nat, m: nat, k: nat, pred: seq<int>)
    requires m < |dcs| && k < |dcs[m]| && dcs[m][k].ci < |pred| && Held(dcs, interval, m, k, pred)
    ensures Held(dcs, interval, m, k + 1, pred[dcs[m][k].ci := dcs[m][k].v])
  {
  }

  // The predictions before MCU m, the restart not yet done.
  ghost predicate HeldBefore(dcs: seq<seq<D.Visit>>, interval: nat, m: nat, pred: seq<int>)
    requires m <= |dcs|
  {
    if m == 0 then forall ci :: 0 <= ci < |pred| ==> pred[ci] == 0
    else Held(dcs, interval, m - 1, |dcs[m - 1]|, pred)
  }

  lemma {:induction false} HeldStart(dcs: seq<seq<D.Visit>>, interval: nat, m: nat, pred: seq<int>, zeros: seq<int>)
    requires m < |dcs| && HeldBefore(dcs, interval, m, pred) && |zeros| == |pred| && forall ci :: 0 <= ci < |zeros| ==> zeros[ci] == 0
    ensures Held(dcs, interval, m, 0, if Marked(interval, m) then zeros else pred)
  {
  }

  // ----- DC scans -----

  /** The DC values as sent: rounded down to bit al. */
  function Points(b: D.DcBand, mcus: seq<seq<D.Visit>>): (dcs: seq<seq<D.Visit>>)
    ensures |dcs| == |mcus| && forall m :: 0 <= m < |mcus| ==> |dcs[m]| == |mcus[m]|
  {
    seq(|mcus|, m requires 0 <= m < |mcus| =>
      seq(|mcus[m]|, k requires 0 <= k < |mcus[m]| => D.Visit(mcus[m][k].ci, mcus[m][k].v / Pow2(b.al))))
  }

  /** Blocks k and on of MCU m: a first scan sends differences, a refinement bit al of each value. */
  function DcMcuPlain(b: D.DcBand, mcus: seq<seq<D.Visit>>, interval: nat, m: nat, k: nat): seq<Token>
    requires E.AllVisitsOk(b, mcus) && m < |mcus| && k <= |mcus[m]|
    decreases |mcus[m]| - k
  {
    if k == |mcus[m]| then []
    else
      assert D.VisitsOk(b, mcus[m]);
      var ci, v := mcus[m][k].ci, mcus[m][k].v / Pow2(b.al);
      (if b.ah == 0 then Coded(Dc(b.tbls[ci]), 0, v - Earlier(Points(b, mcus), interval, m, k, ci)) else [Bits(v % 2, 1)])
      + DcMcuPlain(b, mcus, interval, m, k + 1)
  }

  /** A DC scan from MCU m on. */
  function DcPlain(b: D.DcBand, mcus: seq<seq<D.Visit>>, interval: nat, m: nat): seq<Token>
    requires E.AllVisitsOk(b, mcus) && m <= |mcus|
    decreases |mcus| - m
  {
    if m == |mcus| then []
    else (if Marked(interval, m) then [Rst(MarkerNum(interval, m))] else [])
         + (DcMcuPlain(b, mcus, interval, m, 0) + DcPlain(b, mcus, interval, m + 1))
  }

  /** Main result for DC scans: each block of a first scan is sent as the difference to the block
      of its component before it, the first one of each component and the first after a restart
      as its own value, whatever the number of MCUs and the interval. */
  lemma {:induction false} DcIsPlain(b: D.DcBand, mcus: seq<seq<D.Visit>>, interval: nat)
    requires E.AllVisitsOk(b, mcus)
    ensures D.PassTokens(b, mcus, interval) == DcPlain(b, mcus, interval, 0)
  {
    RestartsSpread(mcus, interval);
    D.VisitsWithRestarts(b, mcus, interval, interval, 0);
    DcFrom(b, mcus, interval, 0, D.NoPred(b));
  }

  lemma {:induction false} EventsFrom(b: D.DcBand, mcus: seq<seq<D.Visit>>, interval: nat, m: nat)
    requires E.AllVisitsOk(b, mcus) && m <= |mcus|
    ensures D.VisitEventsOk(b, Spread(mcus, interval, m))
    decreases |mcus| - m
  {
    if m < |mcus| {
      EventsFrom(b, mcus, interval, m + 1);
      assert D.VisitsOk(b, mcus[m]);
      hide D.VisitsOk;
    }
  }

  lemma {:induction false} DcFrom(b: D.DcBand, mcus: seq<seq<D.Visit>>, interval: nat, m: nat, pred: seq<int>)
    requires E.AllVisitsOk(b, mcus) && m <= |mcus| && |pred| == |b.tbls|
    requires b.ah == 0 ==> HeldBefore(Points(b, mcus), interval, m, pred)
    ensures D.VisitEventsOk(b, Spread(mcus, interval, m))
    ensures D.ScanTokens(b, pred, Spread(mcus, interval, m)) == DcPlain(b, mcus, interval, m)
    decreases |mcus| - m
  {
    EventsFrom(b, mcus, interval, m);
    if m < |mcus| {
      assert D.VisitsOk(b, mcus[m]);
      EventsFrom(b, mcus, interval, m + 1);
      var pred0 := if Marked(interval, m) then D.NoPred(b) else pred;
      if b.ah == 0 {
        HeldStart(Points(b, mcus), interval, m, pred, D.NoPred(b));
        DcMcuFrom(b, mcus, interval, m, 0, pred0);
      } else {
        DcRefineFrom(b, mcus, interval, m, 0);
      }
      assert mcus[m][0..] == mcus[m];
      DcFrom(b, mcus, interval, m + 1, D.McuPred(b, pred0, mcus[m]));
      hide D.VisitEventsOk, D.VisitsOk, D.McuTokens, D.McuPred, DcMcuPlain, D.NoPred, E.AllVisitsOk;
      DcItem(b, pred0, mcus[m], Spread(mcus, interval, m + 1));
      if Marked(interval, m) {
        DcRestart(b, pred, MarkerNum(interval, m), [Item(mcus[m])] + Spread(mcus, interval, m + 1));
      } else {
        assert [] + ([Item(mcus[m])] + Spread(mcus, interval, m + 1)) == [Item(mcus[m])] + Spread(mcus, interval, m + 1);
        var later := DcMcuPlain(b, mcus, interval, m, 0) + DcPlain(b, mcus, interval, m + 1);
        assert [] + later == later;
      }
    }
  }

  lemma {:induction false} DcItem(b: D.DcBand, pred: seq<int>, mcu: seq<D.Visit>, evs: seq<Event<seq<D.Visit>>>)
    requires D.VisitsOk(b, mcu) && D.VisitEventsOk(b, evs) && |pred| == |b.tbls|
    ensures D.VisitEventsOk(b, [Item(mcu)] + evs)
    ensures D.ScanTokens(b, pred, [Item(mcu)] + evs) == D.McuTokens(b, pred, mcu) + D.ScanTokens(b, D.McuPred(b, pred, mcu), evs)
  {
    hide D.McuTokens, D.McuPred, D.VisitsOk;
    var all := [Item(mcu)] + evs;
    assert all[1..] == evs;
  }

  lemma {:induction false} DcRestart(b: D.DcBand, pred: seq<int>, num: nat, evs: seq<Event<seq<D.Visit>>>)
    requires D.VisitEventsOk(b, evs) && |pred| == |b.tbls|
    ensures D.VisitEventsOk(b, [Restart(num)] + evs)
    ensures D.ScanTokens(b, pred, [Restart(num)] + evs) == [Rst(num)] + D.ScanTokens(b, D.NoPred(b), evs)
  {
    hide D.McuTokens, D.McuPred, D.VisitsOk;
    var all: seq<Event<seq<D.Visit>>> := [Restart(num)] + evs;
    assert all[1..] == evs;
  }

  lemma {:induction false} DcMcuFrom(b: D.DcBand, mcus: seq<seq<D.Visit>>, interval: nat, m: nat, k: nat, pred: seq<int>)
    requires E.AllVisitsOk(b, mcus) && m < |mcus| && k <= |mcus[m]| && |pred| == |b.tbls| && b.ah == 0
    requires Held(Points(b, mcus), interval, m, k, pred)
    ensures D.VisitsOk(b, mcus[m][k..]) && D.FirstTokens(b, pred, mcus[m][k..]) == DcMcuPlain(b, mcus, interval, m, k)
    ensures Held(Points(b, mcus), interval, m, |mcus[m]|, D.PredAfter(b, pred, mcus[m][k..]))
    decreases |mcus[m]| - k
  {
    hide Held, Earlier, D.DiffTokens, Coded, Pow2;
    assert D.VisitsOk(b, mcus[m]);
    if k < |mcus[m]| {
      var dcs := Points(b, mcus);
      var x := mcus[m][k];
      HeldAt(dcs, interval, m, k, pred, x.ci);
      HeldNext(dcs, interval, m, k, pred);
      DcMcuFrom(b, mcus, interval, m, k + 1, pred[x.ci := dcs[m][k].v]);
      assert mcus[m][k..][1..] == mcus[m][k + 1..];
      DiffCoded(Dc(b.tbls[x.ci]), dcs[m][k].v - pred[x.ci]);
    }
  }

  lemma {:induction false} DcRefineFrom(b: D.DcBand, mcus: seq<seq<D.Visit>>, interval: nat, m: nat, k: nat)
    requires E.AllVisitsOk(b, mcus) && m < |mcus| && k <= |mcus[m]| && b.ah != 0
    ensures D.RefineTokens(b, mcus[m][k..]) == DcMcuPlain(b, mcus, interval, m, k)
    decreases |mcus[m]| - k
  {
    assert D.VisitsOk(b, mcus[m]);
    if k < |mcus[m]| {
      DcRefineFrom(b, mcus, interval, m, k + 1);
      var l, r := D.RefineTokens(b, mcus[m][k..]), D.RefineTokens(b, mcus[m][k + 1..]);
      assert l == [Bits(D.BitAt(mcus[m][k].v, b.al), 1)] + r;
    }
  }

  // ----- sequential scans -----

  function Dcs(mcus: seq<seq<SC.Unit>>): (dcs: seq<seq<D.Visit>>)
    requires Blocks(mcus)
    ensures |dcs| == |mcus| && forall m :: 0 <= m < |mcus| ==> |dcs[m]| == |mcus[m]|
  {
    seq(|mcus|, m requires 0 <= m < |mcus| =>
      seq(|mcus[m]|, k requires 0 <= k < |mcus[m]| => D.Visit(mcus[m][k].ci, mcus[m][k].z[0])))
  }

  ghost predicate Blocks(mcus: seq<seq<SC.Unit>>) {
    forall m, k :: 0 <= m < |mcus| && 0 <= k < |mcus[m]| ==> |mcus[m][k].z| == 64
  }

  /** One block: the difference of its DC term, each AC coefficient that is not zero with the zeros
      before it, and an EOB unless the last coefficient was sent. */
  function BlockPlain(u: SC.Unit, last: int): seq<Token>
    requires |u.z| == 64
  {
    Coded(Dc(u.dc), 0, u.z[0] - last) + (CoefsPlain(Band(1, 63, 0, 0, Ac(u.ac)), u.z, 1) + if u.z[63] == 0 then [Sym(Ac(u.ac), 0)] else [])
  }

  /** Blocks k and on of MCU m. */
  ghost function McuPlain(mcus: seq<seq<SC.Unit>>, interval: nat, m: nat, k: nat): seq<Token>
    requires Blocks(mcus) && m < |mcus| && k <= |mcus[m]|
    decreases |mcus[m]| - k
  {
    if k == |mcus[m]| then []
    else BlockPlain(mcus[m][k], Earlier(Dcs(mcus), interval, m, k, mcus[m][k].ci)) + McuPlain(mcus, interval, m, k + 1)
  }

  /** A segment: its bits, ones up to a whole byte, and a zero byte after each FF. */
  function Segment(bits: seq<Bit>): seq<Byte> {
    Stuff(Pack(bits + seq((8 - |bits| % 8) % 8, _ => true)))
  }

  /** The bytes from MCU m on when `bits` have been put into the current segment. */
  ghost function ScanPlain(x: SC.Tables, mcus: seq<seq<SC.Unit>>, interval: nat, m: nat, bits: seq<Bit>): seq<Byte>
    requires Blocks(mcus) && m <= |mcus|
    decreases |mcus| - m
  {
    if m == |mcus| then Segment(bits)
    else
      var next := SC.AllBits(x, McuPlain(mcus, interval, m, 0));
      if Marked(interval, m)
      then Segment(bits) + ([0xFF, 0xD0 + MarkerNum(interval, m)] + ScanPlain(x, mcus, interval, m + 1, next))
      else ScanPlain(x, mcus, interval, m + 1, bits + next)
  }

  /** Main result for sequential scans: the bytes of any scan are those of its blocks as above,
      with each DC term sent as the difference to the block of its component before it, back to the
      last restart, and with the markers FF D0 to FF D7 in turn between the segments. */
  lemma {:induction false} SequentialIsPlain(x: SC.Tables, comps: nat, mcus: seq<seq<SC.Unit>>, interval: nat)
    requires ST.AllMcusOk(x, comps, mcus)
    ensures Blocks(mcus) && ST.PassBytes(x, comps, mcus, interval) == ScanPlain(x, mcus, interval, 0, [])
  {
    UnitBlocks(x, comps, mcus);
    RestartsSpread(mcus, interval);
    ScanFrom(x, mcus, interval, 0, ST.NoPred(comps), []);
  }

  lemma {:induction false} UnitBlocks(x: SC.Tables, comps: nat, mcus: seq<seq<SC.Unit>>)
    requires ST.AllMcusOk(x, comps, mcus)
    ensures Blocks(mcus)
  {
    hide SC.TablesOk;
    forall m, k | 0 <= m < |mcus| && 0 <= k < |mcus[m]| ensures |mcus[m][k].z| == 64 {
      assert SC.McuOk(x, comps, mcus[m]);
      assert SC.UnitOk(x, comps, mcus[m][k]);
    }
  }

  lemma {:induction false} UnitEvents(x: SC.Tables, comps: nat, mcus: seq<seq<SC.Unit>>, interval: nat, m: nat)
    requires ST.AllMcusOk(x, comps, mcus) && m <= |mcus|
    ensures ST.McusOk(x, comps, Spread(mcus, interval, m))
    decreases |mcus| - m
  {
    hide SC.TablesOk, SC.McuOk;
    if m < |mcus| {
      UnitEvents(x, comps, mcus, interval, m + 1);
      var evs, later := Spread(mcus, interval, m), Spread(mcus, interval, m + 1);
      forall i | 0 <= i < |evs| ensures ST.EventOk(x, comps, evs[i]) {
        var j := i - (|evs| - |later|);
        if j >= 0 {
          assert evs[i] == later[j];
          assert ST.EventOk(x, comps, later[j]);
        }
      }
    }
  }

  lemma {:induction false} ScanFrom(x: SC.Tables, mcus: seq<seq<SC.Unit>>, interval: nat, m: nat, pred: seq<int>, bits: seq<Bit>)
    requires ST.AllMcusOk(x, |pred|, mcus) && Blocks(mcus) && m <= |mcus| && HeldBefore(Dcs(mcus), interval, m, pred)
    ensures ST.McusOk(x, |pred|, Spread(mcus, interval, m))
    ensures ST.ScanBytes(x, bits, pred, Spread(mcus, interval, m)) == ScanPlain(x, mcus, interval, m, bits)
    decreases |mcus| - m
  {
    hide SC.TablesOk, SC.McuOk, SC.McuTokens, SC.PredAfter, McuPlain, ST.McusOk, SC.AllBits, ST.Finished, Segment, Blocks, Held, Earlier, Dcs;
    UnitEvents(x, |pred|, mcus, interval, m);
    SegmentIs(bits);
    if m < |mcus| {
      assert SC.McuOk(x, |pred|, mcus[m]);
      UnitEvents(x, |pred|, mcus, interval, m + 1);
      var zeros := ST.NoPred(|pred|);
      HeldStart(Dcs(mcus), interval, m, pred, zeros);
      var pred0 := if Marked(interval, m) then zeros else pred;
      McuFrom(x, mcus, interval, m, 0, pred0);
      assert mcus[m][0..] == mcus[m];
      var next := SC.AllBits(x, McuPlain(mcus, interval, m, 0));
      ScanFrom(x, mcus, interval, m + 1, SC.PredAfter(x, pred0, mcus[m]), if Marked(interval, m) then next else bits + next);
      hide ST.ScanBytes, ST.AllMcusOk, ST.NoPred, HeldBefore, Marked;
      McuBytes(x, bits, pred, mcus[m], Marked(interval, m), if Marked(interval, m) then MarkerNum(interval, m) else 0, Spread(mcus, interval, m + 1));
    } else {
      assert Spread(mcus, interval, m) == [];
    }
  }

  // One MCU, with or without a marker before it.
  lemma {:induction false} McuBytes(x: SC.Tables, bits: seq<Bit>, pred: seq<int>, mcu: seq<SC.Unit>, marked: bool, num: nat, evs: seq<Event<seq<SC.Unit>>>)
    requires SC.McuOk(x, |pred|, mcu) && ST.McusOk(x, |pred|, evs) && num < 8
    ensures ST.McusOk(x, |pred|, (if marked then [Restart(num)] else []) + ([Item(mcu)] + evs))
    ensures ST.ScanBytes(x, bits, pred, (if marked then [Restart(num)] else []) + ([Item(mcu)] + evs)) ==
      var pred0 := if marked then ST.NoPred(|pred|) else pred;
      var next := SC.AllBits(x, SC.McuTokens(x, pred0, mcu));
      if marked
      then ST.Finished(bits) + ([0xFF, 0xD0 + num] + ST.ScanBytes(x, next, SC.PredAfter(x, pred0, mcu), evs))
      else ST.ScanBytes(x, bits + next, SC.PredAfter(x, pred0, mcu), evs)
  {
    hide SC.McuTokens, SC.PredAfter, SC.McuOk, ST.McusOk, ST.Finished, SC.AllBits, ST.ScanBytes;
    var items := [Item(mcu)] + evs;
    if marked {
      ItemBytes(x, [], ST.NoPred(|pred|), mcu, evs);
      RestartBytes(x, bits, pred, num, items);
      Nothing(SC.AllBits(x, SC.McuTokens(x, ST.NoPred(|pred|), mcu)));
    } else {
      ItemBytes(x, bits, pred, mcu, evs);
      Nothing(items);
    }
  }

  lemma {:induction false} Nothing<T>(s: seq<T>)
    ensures [] + s == s && s + [] == s
  {
  }

  lemma {:induction false} SegmentIs(bits: seq<Bit>)
    ensures ST.Finished(bits) == Segment(bits)
  {
    hide Stuff, Pack;
    assert W.Padding(|bits|) == seq((8 - |bits| % 8) % 8, _ => true);
  }

  lemma {:induction false} ItemBytes(x: SC.Tables, bits: seq<Bit>, pred: seq<int>, mcu: seq<SC.Unit>, evs: seq<Event<seq<SC.Unit>>>)
    requires SC.McuOk(x, |pred|, mcu) && ST.McusOk(x, |pred|, evs)
    ensures ST.McusOk(x, |pred|, [Item(mcu)] + evs)
    ensures ST.ScanBytes(x, bits, pred, [Item(mcu)] + evs)
         == ST.ScanBytes(x, bits + SC.AllBits(x, SC.McuTokens(x, pred, mcu)), SC.PredAfter(x, pred, mcu), evs)
  {
    hide SC.McuTokens, SC.PredAfter, SC.McuOk, SC.TablesOk, ST.Finished, SC.AllBits;
    var all := [Item(mcu)] + evs;
    assert all[1..] == evs;
    forall i | 0 <= i < |all| ensures ST.EventOk(x, |pred|, all[i]) {
      if i > 0 {
        assert ST.EventOk(x, |pred|, evs[i - 1]);
      }
    }
  }

  lemma {:induction false} RestartBytes(x: SC.Tables, bits: seq<Bit>, pred: seq<int>, num: nat, evs: seq<Event<seq<SC.Unit>>>)
    requires num < 8 && ST.McusOk(x, |pred|, evs)
    ensures ST.McusOk(x, |pred|, [Restart(num)] + evs)
    ensures ST.ScanBytes(x, bits, pred, [Restart(num)] + evs)
         == ST.Finished(bits) + ([0xFF, 0xD0 + num] + ST.ScanBytes(x, [], ST.NoPred(|pred|), evs))
  {
    hide SC.McuTokens, SC.PredAfter, SC.McuOk, SC.TablesOk, ST.Finished, SC.AllBits;
    var all: seq<Event<seq<SC.Unit>>> := [Restart(num)] + evs;
    assert all[1..] == evs;
    forall i | 0 <= i < |all| ensures ST.EventOk(x, |pred|, all[i]) {
      if i > 0 {
        assert ST.EventOk(x, |pred|, evs[i - 1]);
      }
    }
  }

  lemma {:induction false} McuFrom(x: SC.Tables, mcus: seq<seq<SC.Unit>>, interval: nat, m: nat, k: nat, pred: seq<int>)
    requires ST.AllMcusOk(x, |pred|, mcus) && Blocks(mcus) && m < |mcus| && k <= |mcus[m]|
    requires Held(Dcs(mcus), interval, m, k, pred)
    ensures SC.McuOk(x, |pred|, mcus[m][k..]) && SC.McuTokens(x, pred, mcus[m][k..]) == McuPlain(mcus, interval, m, k)
    ensures Held(Dcs(mcus), interval, m, |mcus[m]|, SC.PredAfter(x, pred, mcus[m][k..]))
    decreases |mcus[m]| - k
  {
    hide Held, Earlier, SC.TablesOk, SC.BlockTokens, BlockPlain;
    assert SC.McuOk(x, |pred|, mcus[m]);
    if k < |mcus[m]| {
      var dcs := Dcs(mcus);
      var u := mcus[m][k];
      assert SC.UnitOk(x, |pred|, u);
      HeldAt(dcs, interval, m, k, pred, u.ci);
      HeldNext(dcs, interval, m, k, pred);
      McuFrom(x, mcus, interval, m, k + 1, pred[u.ci := u.z[0]]);
      assert mcus[m][k..][1..] == mcus[m][k + 1..];
      BlockIs(u, pred[u.ci]);
    }
  }

  lemma {:induction false} BlockIs(u: SC.Unit, last: int)
    requires |u.z| == 64
    ensures SC.BlockTokens(u, last) == BlockPlain(u, last)
  {
    var b := Band(1, 63, 0, 0, Ac(u.ac));
    FirstIsPlain(b, u.z);
    DiffCoded(Dc(u.dc), u.z[0] - last);
    ShownExact(u.z[63]);
    hide F.FirstCode, CoefsPlain, D.DiffTokens, Coded;
  }

  // ----- AC scans -----

  /** One block of an AC scan of either kind. */
  ghost function BandCode(b: Band, z: seq<int>): BlockCode
    requires BandOk(b) && |z| == 64
  {
    if b.ah == 0 then BlockCode(CoefsPlain(b, z, b.ss), AcPoint(z[b.se], b.al) == 0, [])
    else BlockCode(BandPlain(b, z, b.ss), Magnitude(z[b.se], b.al) != 1, Unsent(b, z, b.se + 1))
  }

  /** Main result for AC scans: the blocks are coded as above and enter one sequence of EOB runs
      with the restart markers at their places. */
  lemma {:induction false} AcIsPlain(b: Band, zs: seq<seq<int>>, interval: nat)
    requires BandOk(b) && forall i :: 0 <= i < |zs| ==> |zs[i]| == 64
    ensures AC.PassTokens(b, zs, interval)
         == RunTokens(b.tbl, RunState(0, []), Spread(seq(|zs|, i requires 0 <= i < |zs| => BandCode(b, zs[i])), interval, 0))
  {
    var codes := seq(|zs|, i requires 0 <= i < |zs| => BandCode(b, zs[i]));
    forall i | 0 <= i < |zs| ensures AC.CodeOf(b, zs[i]) == codes[i] {
      FirstIsPlain(b, zs[i]);
      RefinementIsPlain(b, zs[i]);
      hide F.FirstCode, BlockRefinement, CoefsPlain, BandPlain, AcPoint, Magnitude, Unsent;
    }
    hide BandCode, AC.CodeOf, RunTokens;
    assert AC.CodesOf(b, zs) == codes;
    RestartsSpread(codes, interval);
  }

  // ----- the bytes of a progressive scan -----

  ghost predicate Unmarked(ts: seq<Token>) {
    forall i :: 0 <= i < |ts| ==> !ts[i].Rst?
  }

  /** Tokens without a marker make one segment; a marker ends it and starts another. */
  lemma {:induction false} StreamSegments(x: SC.Tables, ts: seq<Token>, num: nat, later: seq<Token>)
    requires B.AllSendable(x, ts) && B.AllSendable(x, later) && Unmarked(ts) && num < 8
    ensures B.StreamBytes(x, [], ts) == Segment(SC.AllBits(x, ts))
    ensures B.AllSendable(x, ts + ([Rst(num)] + later))
    ensures B.StreamBytes(x, [], ts + ([Rst(num)] + later))
         == Segment(SC.AllBits(x, ts)) + ([0xFF, 0xD0 + num] + B.StreamBytes(x, [], later))
  {
    hide Segment, SC.AllBits, ST.Finished, SC.Writable;
    var bits := SC.AllBits(x, ts);
    Nothing(ts);
    Nothing(bits);
    SegmentIs(bits);
    StreamCut(x, [], ts, []);
    var rest := [Rst(num)] + later;
    assert rest[1..] == later;
    assert B.AllSendable(x, rest);
    StreamCut(x, [], ts, rest);
  }

  lemma {:induction false} StreamCut(x: SC.Tables, bits: seq<Bit>, ts: seq<Token>, later: seq<Token>)
    requires B.AllSendable(x, ts) && B.AllSendable(x, later) && Unmarked(ts)
    ensures B.AllSendable(x, ts + later)
    ensures B.StreamBytes(x, bits, ts + later) == B.StreamBytes(x, bits + SC.AllBits(x, ts), later)
    decreases |ts|
  {
    hide ST.Finished, SC.Writable, SC.TokenBits;
    if ts == [] {
      Nothing(later);
      Nothing(bits);
    } else {
      assert B.Sendable(x, ts[0]) && !ts[0].Rst?;
      StreamCut(x, bits + SC.TokenBits(x, ts[0]), ts[1..], later);
      assert (ts + later)[1..] == ts[1..] + later;
      Assoc3(bits, SC.TokenBits(x, ts[0]), SC.AllBits(x, ts[1..]));
    }
  }

  // ----- the two smallest scans -----

  /** A scan of one block sends that block's own DC value. */
  lemma {:induction false} OneBlock(x: SC.Tables, comps: nat, u: SC.Unit, interval: nat)
    requires ST.AllMcusOk(x, comps, [[u]]) && |u.z| == 64
    ensures ST.PassBytes(x, comps, [[u]], interval)
         == Segment(SC.AllBits(x, BlockPlain(u, 0)))
  {
    hide SC.TablesOk, BlockPlain, SC.AllBits, Segment;
    var mcus := [[u]];
    SequentialIsPlain(x, comps, mcus, interval);
    hide ST.PassBytes;
    OneOf(mcus, interval, 0, u);
    Nothing(SC.AllBits(x, BlockPlain(u, 0)));
    assert ScanPlain(x, mcus, interval, 0, []) == ScanPlain(x, mcus, interval, 1, [] + SC.AllBits(x, McuPlain(mcus, interval, 0, 0)));
  }

  /** A restart after one block: the block after it sends its own DC value too. */
  lemma {:induction false} TwoSegments(x: SC.Tables, comps: nat, u: SC.Unit, w: SC.Unit)
    requires ST.AllMcusOk(x, comps, [[u], [w]]) && |u.z| == 64 && |w.z| == 64
    ensures ST.PassBytes(x, comps, [[u], [w]], 1)
         == Segment(SC.AllBits(x, BlockPlain(u, 0))) + ([0xFF, 0xD0] + Segment(SC.AllBits(x, BlockPlain(w, 0))))
  {
    hide SC.TablesOk, BlockPlain, SC.AllBits, Segment;
    var mcus := [[u], [w]];
    SequentialIsPlain(x, comps, mcus, 1);
    hide ST.PassBytes, Earlier, SC.McuOk;
    OneOf(mcus, 1, 0, u);
    OneOf(mcus, 1, 1, w);
    var a, b := SC.AllBits(x, BlockPlain(u, 0)), SC.AllBits(x, BlockPlain(w, 0));
    Nothing(a);
    assert Marked(1, 1) && MarkerNum(1, 1) == 0;
    assert ScanPlain(x, mcus, 1, 2, b) == Segment(b);
    assert ScanPlain(x, mcus, 1, 1, a) == Segment(a) + ([0xFF, 0xD0] + ScanPlain(x, mcus, 1, 2, b));
  }

  lemma {:induction false} OneOf(mcus: seq<seq<SC.Unit>>, interval: nat, m: nat, u: SC.Unit)
    requires Blocks(mcus) && m < |mcus| && mcus[m] == [u] && |u.z| == 64 && (m == 0 || Marked(interval, m))
    ensures McuPlain(mcus, interval, m, 0) == BlockPlain(u, 0)
  {
    hide BlockPlain;
    assert McuPlain(mcus, interval, m, 1) == [];
    Nothing(BlockPlain(u, 0));
  }
}
