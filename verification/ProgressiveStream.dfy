// The progressive entropy decoder's state between MCUs (jdphuff.c): input position, bit buffer,
// EOB run, predictions and restart counters, committed only when an MCU is complete.
module ProgressiveStream {
  import opened BitPacking
  import opened Coefficients
  import opened Tokens
  import opened HuffmanDecoding
  import opened SequentialScan
  import opened SequentialStream
  import opened TokenBytes
  import opened TokenReader
  import R = BitReader
  import S = SequentialDecoder
  import B = AcRefine
  import AC = AcScan
  import A = AcReader
  import D = DcScan
  import I = DcDecoder
  import DR = DcReader

  /** A segment opened with part of its input. */
  lemma {:induction false} OpenSplit(input: seq<Byte>, later: seq<Byte>)
    ensures Extend(Open(input).bits, (Marker(input), AfterMarker(input)), later) == Open(input + later)
  {
    hide Data, Marker, AfterMarker, ToBits;
    DataMore(input, later);
    DataSplit(input, later);
    if Marker(input) == 0 {
      ToBitsConcat(Data(input), Data(AfterMarker(input) + later));
    }
  }

  /** Before a restart marker the bits no longer matter. */
  lemma {:induction false} RestartOnly(x: Tables, s: Stream, t: Stream, ts: seq<Token>, e: Stream)
    requires Readable(x) && Leads(x, s, ts, e) && ts != [] && ts[0].Rst? && s.ending == t.ending && s.after == t.after
    ensures Leads(x, t, ts, e)
  {
    hide Readable, AskSymbol, AskBits, Open;
  }

  class Decoder {
    const comps: nat
    const restartInterval: nat
    var input: seq<Byte>
    var getBuffer: nat
    var bitsLeft: nat
    var unreadMarker: Byte
    var insufficientData: bool
    var eobrun: nat
    var lastDcVal: seq<int>
    var restartsToGo: nat
    var nextRestartNum: nat

    constructor (n: nat, interval: nat, inp: seq<Byte>)
      ensures comps == n && restartInterval == interval && input == inp && Valid() && !insufficientData
      ensures eobrun == 0 && lastDcVal == NoPred(n) && restartsToGo == interval && nextRestartNum == 0
      ensures forall later :: All(later) == Open(inp + later)
    {
      comps, restartInterval, input := n, interval, inp;
      getBuffer, bitsLeft, unreadMarker, insufficientData := 0, 0, 0, false;
      eobrun, lastDcVal := 0, NoPred(n);
      restartsToGo, nextRestartNum := interval, 0;
      new;
      Opened();
    }

    ghost predicate Valid()
      reads this`getBuffer, this`bitsLeft, this`unreadMarker, this`insufficientData, this`lastDcVal, this`nextRestartNum
    {
      && getBuffer < R.WORD && bitsLeft <= 32 && (insufficientData ==> unreadMarker != 0)
      && |lastDcVal| == comps && nextRestartNum < 8
    }

    ghost function Ending(): (Byte, seq<Byte>)
      reads this`input, this`unreadMarker
    {
      if unreadMarker != 0 then (unreadMarker, input) else (Marker(input), AfterMarker(input))
    }

    /** All that will have been there when the rest of the input has arrived. */
    ghost function All(later: seq<Byte>): Stream
      reads this`input, this`getBuffer, this`bitsLeft, this`unreadMarker
    {
      Extend(R.Coming(getBuffer, bitsLeft, unreadMarker, input), Ending(), later)
    }

    /** The stream answers with the tokens ts and then is at e. */
    ghost predicate Holds(x: Tables, ts: seq<Token>, later: seq<Byte>, e: Stream)
      reads this`input, this`getBuffer, this`bitsLeft, this`unreadMarker, this`insufficientData, this`lastDcVal, this`nextRestartNum
    {
      Valid() && !insufficientData && Readable(x) && Leads(x, All(later), ts, e)
    }

    lemma {:induction false} Opened()
      requires bitsLeft == 0 && unreadMarker == 0
      ensures forall later :: All(later) == Open(input + later)
    {
      forall later: seq<Byte> ensures All(later) == Open(input + later) {
        S.BufferEmpty(getBuffer, input);
        OpenSplit(input, later);
        hide Extend, R.Coming;
      }
    }

    /** More input arrives. */
    method Receive(more: seq<Byte>, ghost later: seq<Byte>)
      requires Valid()
      modifies this`input
      ensures Valid() && input == old(input) + more && All(later) == old(All(more + later))
    {
      hide R.Coming, Extend, Marker, AfterMarker;
      if unreadMarker == 0 {
        Arrives(getBuffer, bitsLeft, input, more, later);
      } else {
        SameBits(getBuffer, bitsLeft, unreadMarker, input, input + more);
        ArrivesMarked(R.Coming(getBuffer, bitsLeft, unreadMarker, input), unreadMarker, input, more, later);
      }
      input := input + more;
    }

    lemma {:induction false} SameBits(gb: nat, n: nat, marker: Byte, input: seq<Byte>, other: seq<Byte>)
      requires marker != 0
      ensures R.Coming(gb, n, marker, input) == R.Coming(gb, n, marker, other)
    {
    }

    /** next_marker: data bytes before a marker are thrown away. */
    method FindMarker() returns (found: bool)
      requires unreadMarker == 0
      modifies this`input, this`unreadMarker
      ensures Ending() == old(Ending()) && (found <==> unreadMarker != 0) && (found <==> Ending().0 != 0)
    {
      while true
        invariant unreadMarker == 0 && Marker(input) == old(Marker(input)) && AfterMarker(input) == old(AfterMarker(input))
        decreases |input|
      {
        var r := R.ReadByte(input);
        match r
        case Unknown =>
          return false;
        case Mark(code, rest) =>
          unreadMarker, input := code, rest;
          return true;
        case Datum(_, rest) =>
          input := rest;
      }
    }

    lemma {:induction false} EndingOf(later: seq<Byte>)
      ensures All(later).ending == Extend([], Ending(), later).ending && All(later).after == Extend([], Ending(), later).after
      ensures Ending().0 != 0 ==> All(later).ending == Ending().0 && All(later).after == Ending().1 + later
    {
      hide R.Coming, Open;
    }

    /** Unused bits are dropped, and the next marker is looked for. */
    method SeekMarker(ghost x: Tables, ghost ts: seq<Token>, ghost later: seq<Byte>, ghost e: Stream) returns (found: bool)
      requires Holds(x, ts, later, e) && ts != [] && ts[0].Rst?
      modifies this`input, this`bitsLeft, this`unreadMarker
      ensures Holds(x, ts, later, e) && bitsLeft == 0 && (found ==> unreadMarker != 0) && (!found ==> Ending().0 == 0)
    {
      hide R.Coming, Leads, Extend, Marker, AfterMarker, Readable;
      ghost var s := All(later);
      EndingOf(later);
      bitsLeft := 0;
      found := true;
      if unreadMarker == 0 {
        found := FindMarker();
      }
      EndingOf(later);
      RestartOnly(x, s, All(later), ts, e);
    }

    /** process_restart, when the marker that comes next is the expected one.  Without it
        nothing but unused bits and data bytes is lost. */
    method ProcessRestart(ghost x: Tables, ghost ts: seq<Token>, ghost later: seq<Byte>, ghost e: Stream) returns (ok: bool)
      requires Holds(x, ts, later, e) && ts != [] && ts[0] == Rst(nextRestartNum)
      modifies this
      ensures !ok ==> Holds(x, ts, later, e) && Ending().0 == 0
      ensures !ok ==> eobrun == old(eobrun) && lastDcVal == old(lastDcVal) && restartsToGo == old(restartsToGo) && nextRestartNum == old(nextRestartNum)
      ensures ok ==> Holds(x, ts[1..], later, e)
      ensures ok ==> eobrun == 0 && lastDcVal == NoPred(comps) && restartsToGo == restartInterval && nextRestartNum == (old(nextRestartNum) + 1) % 8
    {
      hide R.Coming, Leads, Extend, Marker, AfterMarker, Readable, NoPred, Open;
      ok := SeekMarker(x, ts, later, e);
      if !ok {
        return;
      }
      LeadsRestart(x, All(later), ts, e, nextRestartNum);
      EndingOf(later);
      assert unreadMarker == 0xD0 + nextRestartNum;
      unreadMarker := 0;
      lastDcVal := NoPred(comps);
      eobrun := 0;
      restartsToGo := restartInterval;
      nextRestartNum := (nextRestartNum + 1) % 8;
      insufficientData := false;
      Opened();
    }

    predicate Due()
      reads this
    {
      restartInterval > 0 && restartsToGo == 0
    }

    /** An MCU of an AC scan after the restart check.  A call that runs out of input commits
        nothing, and leaves a block from which all of the input gives what it gave before. */
    method DecodeAcPresent(d: DTbl, b: B.Band, block: array<int>, order: seq<nat>, ghost x: Tables, ghost ts: seq<Token>, ghost later: seq<Byte>, ghost e: Stream)
      returns (ok: bool, ghost ts1: seq<Token>)
      requires Holds(x, ts, later, e) && B.BandOk(b) && Fits(block, order) && TableFor(x, b.tbl, d)
      requires AC.DecodeBlock(b, ts, eobrun, View(block, order)).BlockDone?
      modifies this`input, this`getBuffer, this`bitsLeft, this`unreadMarker, this`insufficientData, this`eobrun, block
      ensures Holds(x, ts1, later, e)
      ensures ok ==> AC.DecodeBlock(b, ts, old(eobrun), old(View(block, order))) == B.BlockDone(ts1, eobrun, View(block, order))
      ensures !ok ==> Ending().0 == 0 && ts1 == ts && eobrun == old(eobrun)
      ensures !ok ==> AC.DecodeBlock(b, ts, eobrun, View(block, order)) == AC.DecodeBlock(b, ts, eobrun, old(View(block, order)))
    {
      hide R.Coming, Leads, Extend, Readable, View, IsZigzag, AC.DecodeBlock, TableFor, Marker, AfterMarker;
      ghost var z := View(block, order);
      var rd := new R.Reader(input, getBuffer, bitsLeft, unreadMarker, insufficientData);
      var run;
      ghost var n;
      ts1 := ts;
      ok, run, n := A.DecodeBlock(rd, x, d, b, eobrun, block, order, ts, later, e);
      if !ok {
        A.Resumes(b, ts, n, eobrun, z, View(block, order));
        return;
      }
      A.Finishes(b, ts, n, eobrun, z, run, View(block, order));
      ts1 := ts[n..];
      input, getBuffer, bitsLeft := rd.input, rd.getBuffer, rd.bitsLeft;
      unreadMarker, insufficientData := rd.unreadMarker, rd.insufficientData;
      eobrun := run;
    }

    /** What the next MCU of an AC scan will find, a restart marker that is due included. */
    ghost function AcNext(b: B.Band, ts: seq<Token>, z: seq<int>): B.BlockOut
      requires B.BandOk(b) && |z| == 64 && (Due() ==> ts != [])
      reads this
    {
      AC.DecodeBlock(b, if Due() then ts[1..] else ts, if Due() then 0 else eobrun, z)
    }

    /** One MCU of an AC scan. */
    method DecodeAc(d: DTbl, b: B.Band, block: array<int>, order: seq<nat>, ghost x: Tables, ghost ts: seq<Token>, ghost later: seq<Byte>, ghost e: Stream)
      returns (ok: bool, ghost ts1: seq<Token>)
      requires Holds(x, ts, later, e) && B.BandOk(b) && Fits(block, order) && TableFor(x, b.tbl, d)
      requires Due() ==> ts != [] && ts[0] == Rst(nextRestartNum)
      requires AcNext(b, ts, View(block, order)).BlockDone?
      modifies this, block
      ensures Holds(x, ts1, later, e) && (!ok ==> Ending().0 == 0)
      ensures ok ==> old(AcNext(b, ts, View(block, order))) == B.BlockDone(ts1, eobrun, View(block, order))
      ensures ok ==> restartsToGo == TogoAfter(restartInterval, old(restartsToGo))
      ensures ok ==> nextRestartNum == if old(Due()) then (old(nextRestartNum) + 1) % 8 else old(nextRestartNum)
      ensures !ok && Due() ==> old(Due()) && ts1 == ts && View(block, order) == old(View(block, order)) && nextRestartNum == old(nextRestartNum)
      ensures !ok && !Due() ==> ts1 == (if old(Due()) then ts[1..] else ts) && eobrun == (if old(Due()) then 0 else old(eobrun))
      ensures !ok && !Due() ==> restartsToGo == (if old(Due()) then restartInterval else old(restartsToGo))
      ensures !ok && !Due() ==> nextRestartNum == if old(Due()) then (old(nextRestartNum) + 1) % 8 else old(nextRestartNum)
      ensures !ok && !Due() ==> AcNext(b, ts1, View(block, order)) == old(AcNext(b, ts, View(block, order)))
    {
      hide Holds, View, IsZigzag, AC.DecodeBlock, TableFor, Marker, AfterMarker, R.Coming;
      ts1 := ts;
      if restartInterval > 0 {
        if restartsToGo == 0 {
          ok := ProcessRestart(x, ts, later, e);
          if !ok {
            return;
          }
          ts1 := ts[1..];
        }
      }
      ok, ts1 := DecodeAcPresent(d, b, block, order, x, ts1, later, e);
      if ok && restartInterval > 0 {
        restartsToGo := restartsToGo - 1;
      }
    }

    /** An MCU of a DC scan after the restart check.  A call that runs out of input commits
        nothing, and leaves blocks from which all of the input gives what it gave before. */
    method DecodeDcPresent(dcs: seq<DTbl>, b: D.DcBand, cis: seq<nat>, blocks: seq<array<int>>, ghost x: Tables, ghost ts: seq<Token>, ghost later: seq<Byte>, ghost e: Stream)
      returns (ok: bool, ghost ts1: seq<Token>, ghost vals: seq<int>)
      requires Holds(x, ts, later, e) && I.Member(b, cis, blocks) && |b.tbls| == comps && (b.ah == 0 ==> DR.TablesFor(x, b, dcs))
      requires D.DecodeMcu(b, ts, lastDcVal, I.Slots(cis, blocks)).McuDone?
      modifies this`input, this`getBuffer, this`bitsLeft, this`unreadMarker, this`insufficientData, this`lastDcVal
      modifies set i | 0 <= i < |blocks| :: blocks[i]
      ensures Holds(x, ts1, later, e) && I.Changed(blocks, old(I.Contents(blocks)), vals)
      ensures ok ==> D.DecodeMcu(b, ts, old(lastDcVal), old(I.Slots(cis, blocks))) == D.McuDone(ts1, lastDcVal, vals)
      ensures !ok ==> Ending().0 == 0 && ts1 == ts && lastDcVal == old(lastDcVal)
      ensures !ok ==> D.DecodeMcu(b, ts, lastDcVal, I.Slots(cis, blocks)) == D.DecodeMcu(b, ts, lastDcVal, old(I.Slots(cis, blocks)))
    {
      hide R.Coming, Leads, Extend, Readable, D.DecodeMcu, I.Slots, I.Changed, I.Contents, DR.TablesFor, Marker, AfterMarker, D.Updated;
      ghost var slots, was := I.Slots(cis, blocks), I.Contents(blocks);
      var rd := new R.Reader(input, getBuffer, bitsLeft, unreadMarker, insufficientData);
      var state;
      ghost var n;
      ts1 := ts;
      ok, state, vals, n := DR.DecodeMcu(rd, x, dcs, b, lastDcVal, cis, blocks, ts, later, e);
      if !ok {
        DR.Resumes(b, ts, n, lastDcVal, slots, vals);
        DR.SlotsUpdated(b, cis, blocks, slots, was, vals);
        return;
      }
      DR.Finishes(b, ts, n, lastDcVal, slots, state, vals);
      ts1 := ts[n..];
      input, getBuffer, bitsLeft := rd.input, rd.getBuffer, rd.bitsLeft;
      unreadMarker, insufficientData := rd.unreadMarker, rd.insufficientData;
      lastDcVal := state;
    }

    /** What the next MCU of a DC scan will find, a restart marker that is due included. */
    ghost function DcNext(b: D.DcBand, ts: seq<Token>, slots: seq<D.Slot>): D.McuOut
      requires D.SlotsOk(b, slots) && |lastDcVal| == comps == |b.tbls| && (Due() ==> ts != [])
      reads this
    {
      D.DecodeMcu(b, if Due() then ts[1..] else ts, if Due() then D.NoPred(b) else lastDcVal, slots)
    }

    lemma {:induction false} SameNoPred(b: D.DcBand)
      requires |b.tbls| == comps
      ensures NoPred(comps) == D.NoPred(b)
    {
    }

    /** One MCU of a DC scan. */
    method DecodeDc(dcs: seq<DTbl>, b: D.DcBand, cis: seq<nat>, blocks: seq<array<int>>, ghost x: Tables, ghost ts: seq<Token>, ghost later: seq<Byte>, ghost e: Stream)
      returns (ok: bool, ghost ts1: seq<Token>, ghost vals: seq<int>)
      requires Holds(x, ts, later, e) && I.Member(b, cis, blocks) && |b.tbls| == comps && (b.ah == 0 ==> DR.TablesFor(x, b, dcs))
      requires Due() ==> ts != [] && ts[0] == Rst(nextRestartNum)
      requires DcNext(b, ts, I.Slots(cis, blocks)).McuDone?
      modifies this, set i | 0 <= i < |blocks| :: blocks[i]
      ensures Holds(x, ts1, later, e) && (!ok ==> Ending().0 == 0) && I.Changed(blocks, old(I.Contents(blocks)), vals)
      ensures ok ==> old(DcNext(b, ts, I.Slots(cis, blocks))) == D.McuDone(ts1, lastDcVal, vals)
      ensures ok ==> restartsToGo == TogoAfter(restartInterval, old(restartsToGo))
      ensures ok ==> nextRestartNum == if old(Due()) then (old(nextRestartNum) + 1) % 8 else old(nextRestartNum)
      ensures !ok && Due() ==> old(Due()) && ts1 == ts && I.Slots(cis, blocks) == old(I.Slots(cis, blocks)) && nextRestartNum == old(nextRestartNum)
      ensures !ok && !Due() ==> ts1 == (if old(Due()) then ts[1..] else ts) && lastDcVal == (if old(Due()) then D.NoPred(b) else old(lastDcVal))
      ensures !ok && !Due() ==> restartsToGo == (if old(Due()) then restartInterval else old(restartsToGo))
      ensures !ok && !Due() ==> nextRestartNum == if old(Due()) then (old(nextRestartNum) + 1) % 8 else old(nextRestartNum)
      ensures !ok && !Due() ==> DcNext(b, ts1, I.Slots(cis, blocks)) == old(DcNext(b, ts, I.Slots(cis, blocks)))
    {
      hide Holds, D.DecodeMcu, I.Slots, I.Changed, I.Contents, DR.TablesFor, D.NoPred, NoPred, Marker, AfterMarker, R.Coming;
      ts1, vals := ts, [];
      I.NothingChanged(blocks);
      SameNoPred(b);
      if restartInterval > 0 {
        if restartsToGo == 0 {
          ok := ProcessRestart(x, ts, later, e);
          if !ok {
            return;
          }
          ts1 := ts[1..];
        }
      }
      ok, ts1, vals := DecodeDcPresent(dcs, b, cis, blocks, x, ts1, later, e);
      if ok && restartInterval > 0 {
        restartsToGo := restartsToGo - 1;
      }
    }
  }
}
