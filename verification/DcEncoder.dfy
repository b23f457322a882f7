// The progressive DC encoder as the source runs it (jcphuff.c): predictions, restart
// counter and output change from MCU to MCU, when gathering statistics or writing output.
module DcEncoder {
  import opened Arith
  import opened Coefficients
  import opened Tokens
  import opened DcScan

  class Encoder {
    const band: DcBand
    const gather: bool
    const restartInterval: nat
    var out: seq<Token>
    var counts: map<Token, nat>
    var lastDcVal: seq<int>
    var restartsToGo: nat
    var nextRestartNum: nat
    /** Everything emitted or counted so far, whatever the mode. */
    ghost var log: seq<Token>

    constructor (b: DcBand, gatherStatistics: bool, interval: nat)
      ensures band == b && gather == gatherStatistics && restartInterval == interval
      ensures Valid() && log == [] && lastDcVal == NoPred(b) && restartsToGo == interval && nextRestartNum == 0
    {
      band, gather, restartInterval := b, gatherStatistics, interval;
      out, counts, log := [], map[], [];
      lastDcVal := NoPred(b);
      restartsToGo, nextRestartNum := interval, 0;
    }

    ghost predicate Ledger()
      reads this`out, this`counts, this`log
    {
      if gather then out == [] && forall t: Token :: t.Sym? ==> Count(t) == multiset(log)[t]
      else out == log
    }

    function Count(t: Token): nat
      reads this`counts
    {
      if t in counts then counts[t] else 0
    }

    ghost predicate Valid()
      reads this
    {
      Ledger() && |lastDcVal| == |band.tbls| && nextRestartNum < 8
    }

    method EmitSymbol(tbl: Table, symbol: nat)
      requires Ledger()
      modifies this`out, this`counts, this`log
      ensures Ledger() && log == old(log) + [Sym(tbl, symbol)]
    {
      var t := Sym(tbl, symbol);
      if gather {
        counts := counts[t := Count(t) + 1];
      } else {
        out := out + [t];
      }
      log := log + [t];
    }

    /** The low `size` bits of code. */
    method EmitBits(code: int, size: nat)
      requires Ledger() && size > 0
      modifies this`out, this`log
      ensures Ledger() && log == old(log) + [Bits(code % Pow2(size), size)]
    {
      if !gather {
        out := out + [Bits(code % Pow2(size), size)];
      }
      log := log + [Bits(code % Pow2(size), size)];
    }

    /** emit_restart, for a DC scan. */
    method EmitRestart(num: nat)
      requires Valid()
      modifies this`out, this`log, this`lastDcVal
      ensures Valid() && lastDcVal == NoPred(band) && log == old(log) + [Rst(num)]
    {
      if !gather {
        out := out + [Rst(num)];
      }
      log := log + [Rst(num)];
      var ci := 0;
      while ci < |band.tbls|
        invariant 0 <= ci <= |band.tbls| == |lastDcVal| && Valid() && log == old(log) + [Rst(num)]
        invariant forall c :: 0 <= c < ci ==> lastDcVal[c] == 0
      {
        lastDcVal := lastDcVal[ci := 0];
        ci := ci + 1;
      }
      assert lastDcVal == NoPred(band);
    }

    /** One difference: its bit count as a symbol, then its bits. */
    method EmitDiff(tbl: Table, diff: int) returns (ok: bool)
      requires Ledger()
      modifies this`out, this`counts, this`log
      ensures Ledger() && (ok <==> NBits(Abs(diff)) <= MAX_COEF_BITS + 1)
      ensures ok ==> log == old(log) + DiffTokens(tbl, diff)
    {
      hide Ledger, NBits, Pow2;
      var temp, temp2 := diff, diff;
      if temp < 0 {
        temp := -temp;
        temp2 := temp2 - 1;
      }
      var nbits := CountBits(temp);
      if nbits > MAX_COEF_BITS + 1 {
        return false;
      }
      EmitSymbol(tbl, nbits);
      if nbits != 0 {
        EmitBits(temp2, nbits);
        Assoc3(old(log), [Sym(tbl, nbits)], [Bits(MagnitudeBits(diff, nbits), nbits)]);
      } else {
        assert [Sym(tbl, nbits)] + [] == [Sym(tbl, nbits)];
      }
      ok := true;
    }

    /** The blocks of one MCU of a first DC scan; false where a difference is out of range. */
    method EncodeFirst(mcu: seq<Visit>) returns (ok: bool)
      requires Valid() && VisitsOk(band, mcu)
      modifies this`out, this`counts, this`log, this`lastDcVal
      ensures Valid() && (ok <==> DiffsFit(band, old(lastDcVal), mcu))
      ensures ok ==> log == old(log) + FirstTokens(band, old(lastDcVal), mcu)
      ensures ok ==> lastDcVal == PredAfter(band, old(lastDcVal), mcu)
    {
      hide Ledger, NBits, DiffTokens, DcPoint;
      ghost var all := FirstTokens(band, lastDcVal, mcu);
      var blkn := 0;
      assert mcu[0..] == mcu && log + all == old(log) + all;
      while blkn < |mcu|
        invariant 0 <= blkn <= |mcu| && Valid() && VisitsOk(band, mcu[blkn..])
        invariant DiffsFit(band, old(lastDcVal), mcu) <==> DiffsFit(band, lastDcVal, mcu[blkn..])
        invariant log + FirstTokens(band, lastDcVal, mcu[blkn..]) == old(log) + all
        invariant PredAfter(band, old(lastDcVal), mcu) == PredAfter(band, lastDcVal, mcu[blkn..])
      {
        var x := mcu[blkn];
        var temp2 := DcPoint(x.v, band.al);
        var diff := temp2 - lastDcVal[x.ci];
        FirstStep(band, log, lastDcVal, mcu[blkn..]);
        assert mcu[blkn..][1..] == mcu[blkn + 1..];
        lastDcVal := lastDcVal[x.ci := temp2];
        ok := EmitDiff(Dc(band.tbls[x.ci]), diff);
        if !ok {
          return;
        }
        blkn := blkn + 1;
      }
      assert log + [] == log;
      ok := true;
    }

    /** The blocks of one MCU of a DC refinement scan: bit al of each value. */
    method EncodeRefine(mcu: seq<Visit>)
      requires Valid()
      modifies this`out, this`log
      ensures Valid() && log == old(log) + RefineTokens(band, mcu)
    {
      hide Ledger;
      assert Pow2(1) == 2;
      var blkn := 0;
      while blkn < |mcu|
        invariant 0 <= blkn <= |mcu| && Valid()
        invariant log == old(log) + RefineTokens(band, mcu)[..blkn]
      {
        assert BitAt(mcu[blkn].v, band.al) == DcPoint(mcu[blkn].v, band.al) % Pow2(1);
        EmitBits(DcPoint(mcu[blkn].v, band.al), 1);
        assert RefineTokens(band, mcu)[..blkn + 1] == RefineTokens(band, mcu)[..blkn] + [RefineTokens(band, mcu)[blkn]];
        blkn := blkn + 1;
      }
    }

    /** One MCU of a DC scan, with the restart marker if one is due and the restart counter. */
    method EncodeMcu(mcu: seq<Visit>) returns (ok: bool)
      requires Valid() && VisitsOk(band, mcu)
      modifies this`out, this`counts, this`log, this`lastDcVal, this`restartsToGo, this`nextRestartNum
      ensures Valid()
      ensures var due := restartInterval > 0 && old(restartsToGo) == 0;
        var pred := if due then NoPred(band) else old(lastDcVal);
        && (ok <==> (band.ah == 0 ==> DiffsFit(band, pred, mcu)))
        && (ok ==>
          && log == (if due then old(log) + [Rst(old(nextRestartNum))] else old(log)) + McuTokens(band, pred, mcu)
          && lastDcVal == McuPred(band, pred, mcu)
          && restartsToGo == TogoAfter(restartInterval, old(restartsToGo))
          && nextRestartNum == if due then (old(nextRestartNum) + 1) % 8 else old(nextRestartNum))
    {
      hide Ledger, FirstTokens, RefineTokens, PredAfter, DiffsFit, NoPred;
      if restartInterval > 0 && restartsToGo == 0 {
        EmitRestart(nextRestartNum);
      }
      if band.ah == 0 {
        ok := EncodeFirst(mcu);
        if !ok {
          return;
        }
      } else {
        EncodeRefine(mcu);
        ok := true;
      }
      if restartInterval > 0 {
        if restartsToGo == 0 {
          restartsToGo := restartInterval;
          nextRestartNum := (nextRestartNum + 1) % 8;
        }
        restartsToGo := restartsToGo - 1;
      }
    }

    /** The log with all that is still to come. */
    ghost function Owed(mcus: seq<seq<Visit>>): seq<Token>
      reads this
      requires |lastDcVal| == |band.tbls| && AllVisitsOk(band, mcus)
    {
      VisitsWithRestarts(band, mcus, restartInterval, restartsToGo, nextRestartNum);
      log + ScanTokens(band, lastDcVal, WithRestarts(mcus, restartInterval, restartsToGo, nextRestartNum))
    }

    /** A whole DC scan: it fails exactly when a difference of a first scan is out of range. */
    method EncodeScan(mcus: seq<seq<Visit>>) returns (ok: bool)
      requires Valid() && AllVisitsOk(band, mcus)
      requires log == [] && lastDcVal == NoPred(band) && restartsToGo == restartInterval && nextRestartNum == 0
      modifies this`out, this`counts, this`log, this`lastDcVal, this`restartsToGo, this`nextRestartNum
      ensures ok <==> DiffsFitFrom(band, NoPred(band), mcus, restartInterval, restartInterval)
      ensures ok ==> Valid() && log == PassTokens(band, mcus, restartInterval)
    {
      hide Ledger, NoPred, VisitsOk, DiffsFit, McuTokens, McuPred, ScanTokens, DcPoint, WithRestarts, DiffsFitFrom;
      ghost var all := Owed(mcus);
      assert all == [] + PassTokens(band, mcus, restartInterval) == PassTokens(band, mcus, restartInterval);
      assert mcus[0..] == mcus;
      var i := 0;
      while i < |mcus|
        invariant 0 <= i <= |mcus| && Valid() && AllVisitsOk(band, mcus[i..])
        invariant all == Owed(mcus[i..])
        invariant DiffsFitFrom(band, NoPred(band), mcus, restartInterval, restartInterval) <==>
                  DiffsFitFrom(band, lastDcVal, mcus[i..], restartInterval, restartsToGo)
      {
        var mcu := mcus[i..][0];
        DiffsFitStep(band, lastDcVal, mcus[i..], restartInterval, restartsToGo);
        VisitsWithRestarts(band, mcus[i..], restartInterval, restartsToGo, nextRestartNum);
        McuAhead(band, log, lastDcVal, mcus[i..], restartInterval, restartsToGo, nextRestartNum);
        ok := EncodeMcu(mcu);
        if !ok {
          return;
        }
        assert mcus[i..][1..] == mcus[i + 1..];
        i := i + 1;
      }
      NothingAhead(band, lastDcVal, restartInterval, restartsToGo, nextRestartNum);
      NothingUnfit(band, lastDcVal, restartInterval, restartsToGo);
      assert mcus[i..] == [] && log + [] == log;
      ok := true;
    }
  }

  /** No difference of the MCUs still to come is out of range. */
  ghost predicate DiffsFitFrom(b: DcBand, pred: seq<int>, mcus: seq<seq<Visit>>, interval: nat, togo: nat)
    requires AllVisitsOk(b, mcus) && |pred| == |b.tbls|
    decreases |mcus|
  {
    mcus == [] ||
    (assert VisitsOk(b, mcus[0]);
     var pred0 := if interval > 0 && togo == 0 then NoPred(b) else pred;
     && (b.ah == 0 ==> DiffsFit(b, pred0, mcus[0]))
     && DiffsFitFrom(b, McuPred(b, pred0, mcus[0]), mcus[1..], interval, TogoAfter(interval, togo)))
  }

  lemma {:induction false} DiffsFitStep(b: DcBand, pred: seq<int>, mcus: seq<seq<Visit>>, interval: nat, togo: nat)
    requires AllVisitsOk(b, mcus) && |pred| == |b.tbls| && mcus != [] && VisitsOk(b, mcus[0])
    ensures var pred0 := if interval > 0 && togo == 0 then NoPred(b) else pred;
      DiffsFitFrom(b, pred, mcus, interval, togo) <==>
        (b.ah == 0 ==> DiffsFit(b, pred0, mcus[0])) && DiffsFitFrom(b, McuPred(b, pred0, mcus[0]), mcus[1..], interval, TogoAfter(interval, togo))
  {
    hide VisitsOk, DiffsFit, McuPred, NoPred;
  }

  lemma {:induction false} NothingUnfit(b: DcBand, pred: seq<int>, interval: nat, togo: nat)
    requires |pred| == |b.tbls|
    ensures DiffsFitFrom(b, pred, [], interval, togo)
  {
  }

  /** A refinement scan cannot fail, and a first scan of 8-bit data cannot either. */
  lemma {:induction false} NeverFails(b: DcBand, pred: seq<int>, mcus: seq<seq<Visit>>, interval: nat, togo: nat)
    requires AllVisitsOk(b, mcus) && |pred| == |b.tbls|
    requires b.ah != 0 || (AllEightBit(mcus) && PredFits(pred))
    ensures DiffsFitFrom(b, pred, mcus, interval, togo)
    decreases |mcus|
  {
    hide VisitsOk, DiffsFit, McuPred, NoPred, EightBit, PredFits;
    if mcus != [] {
      assert VisitsOk(b, mcus[0]);
      var pred0 := if interval > 0 && togo == 0 then NoPred(b) else pred;
      if b.ah == 0 {
        NoPredFits(b);
        EightBitFits(b, pred0, mcus[0]);
      }
      NeverFails(b, McuPred(b, pred0, mcus[0]), mcus[1..], interval, TogoAfter(interval, togo));
    }
  }

  ghost predicate AllVisitsOk(b: DcBand, mcus: seq<seq<Visit>>) {
    forall i :: 0 <= i < |mcus| ==> VisitsOk(b, mcus[i])
  }

  /** No difference needs more than MAX_COEF_BITS + 1 bits. */
  predicate DiffsFit(b: DcBand, pred: seq<int>, mcu: seq<Visit>)
    requires VisitsOk(b, mcu) && |pred| == |b.tbls|
    decreases |mcu|
  {
    mcu == [] ||
    var x := mcu[0];
    var t := DcPoint(x.v, b.al);
    NBits(Abs(t - pred[x.ci])) <= MAX_COEF_BITS + 1 && DiffsFit(b, pred[x.ci := t], mcu[1..])
  }

  lemma {:induction false} FirstStep(b: DcBand, log: seq<Token>, pred: seq<int>, mcu: seq<Visit>)
    requires VisitsOk(b, mcu) && |pred| == |b.tbls| && mcu != []
    ensures var x := mcu[0];
      var t := DcPoint(x.v, b.al);
      log + FirstTokens(b, pred, mcu)
      == (log + DiffTokens(Dc(b.tbls[x.ci]), t - pred[x.ci])) + FirstTokens(b, pred[x.ci := t], mcu[1..])
  {
    hide DiffTokens, DcPoint;
    var x := mcu[0];
    var t := DcPoint(x.v, b.al);
    Assoc3(log, DiffTokens(Dc(b.tbls[x.ci]), t - pred[x.ci]), FirstTokens(b, pred[x.ci := t], mcu[1..]));
  }

  predicate EightBit(mcu: seq<Visit>) {
    forall i :: 0 <= i < |mcu| ==> -1024 <= mcu[i].v <= 1023
  }

  ghost predicate AllEightBit(mcus: seq<seq<Visit>>) {
    forall i :: 0 <= i < |mcus| ==> EightBit(mcus[i])
  }

  ghost predicate PredFits(pred: seq<int>) {
    forall c :: 0 <= c < |pred| ==> -1024 <= pred[c] <= 1023
  }

  lemma {:induction false} NoPredFits(b: DcBand)
    ensures PredFits(NoPred(b))
  {
  }

  lemma {:induction false} PointShrinks(v: int, al: nat)
    requires -1024 <= v <= 1023
    ensures -1024 <= DcPoint(v, al) <= 1023
  {
    var p := Pow2(al);
    var q, s := v / p, v % p;
    assert v == q * p + s && 0 <= s < p;
    hide Pow2;
    ProductShrinks(q, p, s);
  }

  lemma {:induction false} ProductShrinks(q: int, p: nat, s: nat)
    requires s < p && -1024 <= q * p + s <= 1023
    ensures -1024 <= q <= 1023
  {
    if q >= 0 {
      MulAtLeast(p, q);
    } else {
      MulAtLeast(p, -q - 1);
      assert (q + 1) * p == q * p + p;
    }
  }

  /** For 8-bit data the range check on DC differences never fires. */
  lemma {:induction false} EightBitFits(b: DcBand, pred: seq<int>, mcu: seq<Visit>)
    requires VisitsOk(b, mcu) && |pred| == |b.tbls| && EightBit(mcu) && PredFits(pred)
    ensures DiffsFit(b, pred, mcu) && PredFits(McuPred(b, pred, mcu))
    decreases |mcu|
  {
    hide DcPoint, NBits, Pow2;
    if mcu != [] {
      var x := mcu[0];
      PointShrinks(x.v, b.al);
      var t := DcPoint(x.v, b.al);
      Pow2Values();
      NBitsBound(Abs(t - pred[x.ci]), 11);
      EightBitFits(b, pred[x.ci := t], mcu[1..]);
    }
  }

  /** One MCU in the token stream of a scan. */
  lemma {:induction false} McuAhead(b: DcBand, log: seq<Token>, pred: seq<int>, mcus: seq<seq<Visit>>, interval: nat, togo: nat, num: nat)
    requires AllVisitsOk(b, mcus) && |pred| == |b.tbls| && mcus != [] && VisitsOk(b, mcus[0])
    requires VisitEventsOk(b, WithRestarts(mcus, interval, togo, num))
    ensures var due := interval > 0 && togo == 0;
      var pred0, num1 := if due then NoPred(b) else pred, if due then (num + 1) % 8 else num;
      var evs1 := WithRestarts(mcus[1..], interval, TogoAfter(interval, togo), num1);
      && VisitEventsOk(b, evs1)
      && log + ScanTokens(b, pred, WithRestarts(mcus, interval, togo, num))
         == ((if due then log + [Rst(num)] else log) + McuTokens(b, pred0, mcus[0])) + ScanTokens(b, McuPred(b, pred0, mcus[0]), evs1)
    decreases togo == 0
  {
    hide McuTokens, McuPred, VisitsOk, NoPred;
    if interval > 0 && togo == 0 {
      var evs := WithRestarts(mcus, interval, interval, (num + 1) % 8);
      assert ([Restart(num)] + evs)[1..] == evs;
      VisitsWithRestarts(b, mcus, interval, interval, (num + 1) % 8);
      McuAhead(b, log + [Rst(num)], NoPred(b), mcus, interval, interval, (num + 1) % 8);
      Assoc3(log, [Rst(num)], ScanTokens(b, NoPred(b), evs));
    } else {
      var evs := WithRestarts(mcus, interval, togo, num);
      assert evs[1..] == WithRestarts(mcus[1..], interval, TogoAfter(interval, togo), num);
      VisitsWithRestarts(b, mcus[1..], interval, TogoAfter(interval, togo), num);
      Assoc3(log, McuTokens(b, pred, mcus[0]), ScanTokens(b, McuPred(b, pred, mcus[0]), evs[1..]));
    }
  }

  lemma {:induction false} NothingAhead(b: DcBand, pred: seq<int>, interval: nat, togo: nat, num: nat)
    requires |pred| == |b.tbls|
    ensures VisitEventsOk(b, WithRestarts([], interval, togo, num))
    ensures ScanTokens(b, pred, WithRestarts([], interval, togo, num)) == []
  {
  }
}
