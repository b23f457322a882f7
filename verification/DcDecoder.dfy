// The progressive DC decoder as the source runs it (jdphuff.c): the DC term of each block of
// an MCU is set in place, predictions and input position are committed when it is complete.
module DcDecoder {
  import opened Arith
  import opened Coefficients
  import opened Tokens
  import opened DcScan
  import opened ProgressiveDecoder

  /** The blocks of one MCU: at least one coefficient each and no block twice. */
  ghost predicate BlocksOk(blocks: seq<array<int>>) {
    && (forall i :: 0 <= i < |blocks| ==> blocks[i].Length == 64)
    && forall i, j :: 0 <= i < j < |blocks| ==> blocks[i] != blocks[j]
  }

  ghost predicate Member(b: DcBand, cis: seq<nat>, blocks: seq<array<int>>) {
    BlocksOk(blocks) && |cis| == |blocks| && forall i :: 0 <= i < |cis| ==> cis[i] < |b.tbls|
  }

  ghost function Slots(cis: seq<nat>, blocks: seq<array<int>>): (ss: seq<Slot>)
    requires BlocksOk(blocks) && |cis| == |blocks|
    reads set i | 0 <= i < |blocks| :: blocks[i]
    ensures |ss| == |blocks| && forall i :: 0 <= i < |ss| ==> ss[i] == Slot(cis[i], blocks[i][0])
  {
    if blocks == [] then [] else [Slot(cis[0], blocks[0][0])] + Slots(cis[1..], blocks[1..])
  }

  ghost function Contents(blocks: seq<array<int>>): (cs: seq<seq<int>>)
    requires BlocksOk(blocks)
    reads set i | 0 <= i < |blocks| :: blocks[i]
    ensures |cs| == |blocks| && forall i :: 0 <= i < |cs| ==> |cs[i]| == 64 && cs[i] == blocks[i][..]
  {
    if blocks == [] then [] else [blocks[0][..]] + Contents(blocks[1..])
  }

  /** The blocks are as they were, but for the DC terms of the first few. */
  ghost predicate Changed(blocks: seq<array<int>>, was: seq<seq<int>>, vals: seq<int>)
    requires BlocksOk(blocks) && |was| == |blocks|
    reads set i | 0 <= i < |blocks| :: blocks[i]
  {
    && |vals| <= |blocks|
    && (forall i :: 0 <= i < |was| ==> |was[i]| == 64)
    && (forall i :: 0 <= i < |vals| ==> blocks[i][..] == was[i][0 := vals[i]])
    && (forall i :: |vals| <= i < |blocks| ==> blocks[i][..] == was[i])
  }

  lemma {:induction false} NothingChanged(blocks: seq<array<int>>)
    requires BlocksOk(blocks)
    ensures Changed(blocks, Contents(blocks), [])
  {
  }

  method SetDc(blocks: seq<array<int>>, k: nat, v: int, ghost was: seq<seq<int>>, ghost vals: seq<int>)
    requires BlocksOk(blocks) && |was| == |blocks| && Changed(blocks, was, vals) && k == |vals| < |blocks|
    modifies blocks[k]
    ensures Changed(blocks, was, vals + [v])
  {
    blocks[k][0] := v;
  }

  class Decoder {
    const band: DcBand
    const restartInterval: nat
    var input: seq<Token>
    var lastDcVal: seq<int>
    var restartsToGo: nat
    var nextRestartNum: nat

    constructor (b: DcBand, interval: nat)
      ensures band == b && restartInterval == interval && input == [] && lastDcVal == NoPred(b)
      ensures restartsToGo == interval && nextRestartNum == 0
    {
      band, restartInterval := b, interval;
      input, lastDcVal := [], NoPred(b);
      restartsToGo, nextRestartNum := interval, 0;
    }

    /** decode_mcu_DC_first, after the restart check. */
    method DecodeFirst(cis: seq<nat>, blocks: seq<array<int>>) returns (verdict: Verdict, ghost vals: seq<int>)
      requires band.ah == 0 && Member(band, cis, blocks) && |lastDcVal| == |band.tbls|
      modifies this`input, this`lastDcVal, set i | 0 <= i < |blocks| :: blocks[i]
      ensures Changed(blocks, old(Contents(blocks)), vals)
      ensures verdict != Done ==> input == old(input) && lastDcVal == old(lastDcVal)
      ensures match DecodeMcu(band, old(input), old(lastDcVal), old(Slots(cis, blocks)))
        case McuDone(ts, pred, vs) => verdict == Done && vals == vs && input == ts && lastDcVal == pred
        case McuStarved(vs) => verdict == Suspended && vals == vs
        case McuGarbled => verdict == Garbled
    {
      hide DecodeMcu, HuffExtend, Pow2, ReadDiff, PushAll, Push, NoPred, Slots, Changed, Contents;
      ghost var was, slots, all := Contents(blocks), Slots(cis, blocks), DecodeMcu(band, input, lastDcVal, Slots(cis, blocks));
      var ts, state := input, lastDcVal;
      vals := [];
      NothingChanged(blocks);
      assert slots[0..] == slots;
      PushNone(all);
      var blkn := 0;
      while blkn < |blocks|
        invariant 0 <= blkn == |vals| <= |blocks| && |state| == |band.tbls|
        invariant input == old(input) && lastDcVal == old(lastDcVal)
        invariant Changed(blocks, was, vals)
        invariant all == PushAll(vals, DecodeMcu(band, ts, state, slots[blkn..]))
      {
        FirstStep(band, ts, state, slots[blkn..]);
        PushEnds(vals, ts, state);
        var ci := cis[blkn];
        assert slots[blkn..][0] == Slot(ci, old(blocks[blkn][0])) && slots[blkn..][1..] == slots[blkn + 1..];
        var s: int := 0;
        match ReadDiff(ts, Dc(band.tbls[ci]))
        case DiffNone =>
          return Suspended, vals;
        case DiffWrong =>
          return Garbled, vals;
        case DiffGot(diff, ts1) =>
          s, ts := diff, ts1;
        s := s + state[ci];
        state := state[ci := s];
        SetDc(blocks, blkn, s * Pow2(band.al), was, vals);
        PushMore(vals, s * Pow2(band.al), DecodeMcu(band, ts, state, slots[blkn + 1..]));
        vals := vals + [s * Pow2(band.al)];
        blkn := blkn + 1;
      }
      NoSlots(band, ts, state);
      PushEnds(vals, ts, state);
      input, lastDcVal := ts, state;
      verdict := Done;
    }

    /** decode_mcu_DC_refine, after the restart check. */
    method DecodeRefinement(cis: seq<nat>, blocks: seq<array<int>>) returns (verdict: Verdict, ghost vals: seq<int>)
      requires band.ah != 0 && Member(band, cis, blocks) && |lastDcVal| == |band.tbls|
      modifies this`input, set i | 0 <= i < |blocks| :: blocks[i]
      ensures Changed(blocks, old(Contents(blocks)), vals)
      ensures verdict != Done ==> input == old(input)
      ensures match DecodeMcu(band, old(input), lastDcVal, old(Slots(cis, blocks)))
        case McuDone(ts, pred, vs) => verdict == Done && vals == vs && input == ts && lastDcVal == pred
        case McuStarved(vs) => verdict == Suspended && vals == vs
        case McuGarbled => verdict == Garbled
    {
      hide DecodeMcu, Pow2, PushAll, Push, NoPred, Slots, Changed, Contents, OrBit;
      ghost var was, slots, all := Contents(blocks), Slots(cis, blocks), DecodeMcu(band, input, lastDcVal, Slots(cis, blocks));
      var ts := input;
      vals := [];
      NothingChanged(blocks);
      assert slots[0..] == slots;
      PushNone(all);
      var blkn := 0;
      while blkn < |blocks|
        invariant 0 <= blkn == |vals| <= |blocks|
        invariant input == old(input) && lastDcVal == old(lastDcVal)
        invariant Changed(blocks, was, vals)
        invariant all == PushAll(vals, DecodeMcu(band, ts, lastDcVal, slots[blkn..]))
      {
        RefineStep(band, ts, lastDcVal, slots[blkn..]);
        PushEnds(vals, ts, lastDcVal);
        assert slots[blkn..][0] == slots[blkn] && slots[blkn..][1..] == slots[blkn + 1..];
        match ReadBits(ts, 1)
        case NoData =>
          return Suspended, vals;
        case WrongKind =>
          return Garbled, vals;
        case Got(bit, ts1) =>
          ts := ts1;
          ghost var v := OrBit(slots[blkn].d, bit, band.al);
          StillThere(cis, blocks, was, vals);
          OrDc(blocks, blkn, bit, band.al, was, vals);
          PushMore(vals, v, DecodeMcu(band, ts, lastDcVal, slots[blkn + 1..]));
          vals := vals + [v];
        blkn := blkn + 1;
      }
      NoSlots(band, ts, lastDcVal);
      PushEnds(vals, ts, lastDcVal);
      input := ts;
      verdict := Done;
    }

    /** process_restart for a DC scan, when the expected marker comes next. */
    method ProcessRestart() returns (verdict: Verdict)
      requires |lastDcVal| == |band.tbls|
      modifies this`input, this`lastDcVal, this`restartsToGo, this`nextRestartNum
      ensures verdict == Done <==> old(input) != [] && old(input)[0] == Rst(old(nextRestartNum))
      ensures verdict == Suspended <==> old(input) == []
      ensures verdict == Done ==>
        && input == old(input)[1..] && lastDcVal == NoPred(band) && restartsToGo == restartInterval
        && nextRestartNum == (old(nextRestartNum) + 1) % 8
      ensures verdict != Done ==> unchanged(this)
    {
      if input == [] {
        return Suspended;
      }
      if input[0] != Rst(nextRestartNum) {
        return Garbled;
      }
      input := input[1..];
      nextRestartNum := (nextRestartNum + 1) % 8;
      lastDcVal := NoPred(band);
      restartsToGo := restartInterval;
      verdict := Done;
    }

    predicate Due()
      reads this
    {
      restartInterval > 0 && restartsToGo == 0
    }

    predicate Expected()
      reads this
    {
      input != [] && input[0] == Rst(nextRestartNum)
    }

    /** One MCU of a DC scan: the restart marker if one is due, then its blocks. */
    method DecodeNext(cis: seq<nat>, blocks: seq<array<int>>) returns (verdict: Verdict, ghost vals: seq<int>)
      requires Member(band, cis, blocks) && |lastDcVal| == |band.tbls|
      modifies this, set i | 0 <= i < |blocks| :: blocks[i]
      ensures |lastDcVal| == |band.tbls| && Changed(blocks, old(Contents(blocks)), vals)
      ensures var due := old(Due());
        var ts0, pred0 := if due && old(Expected()) then old(input)[1..] else old(input), if due then NoPred(band) else old(lastDcVal);
        if due && !old(Expected()) then
          verdict == (if old(input) == [] then Suspended else Garbled) && unchanged(this) && vals == []
        else
          match DecodeMcu(band, ts0, pred0, old(Slots(cis, blocks)))
          case McuDone(ts, pred, vs) =>
            && verdict == Done && vals == vs && input == ts && lastDcVal == pred
            && restartsToGo == TogoAfter(restartInterval, old(restartsToGo))
            && nextRestartNum == if due then (old(nextRestartNum) + 1) % 8 else old(nextRestartNum)
          case McuStarved(vs) =>
            && verdict == Suspended && vals == vs && input == ts0 && lastDcVal == pred0
            && restartsToGo == (if due then restartInterval else old(restartsToGo))
            && nextRestartNum == if due then (old(nextRestartNum) + 1) % 8 else old(nextRestartNum)
          case McuGarbled => verdict == Garbled
    {
      hide DecodeMcu, NoPred, Changed, Contents, Slots;
      NothingChanged(blocks);
      if restartInterval > 0 {
        if restartsToGo == 0 {
          verdict := ProcessRestart();
          if verdict != Done {
            return verdict, [];
          }
        }
      }
      if band.ah == 0 {
        verdict, vals := DecodeFirst(cis, blocks);
      } else {
        verdict, vals := DecodeRefinement(cis, blocks);
      }
      if verdict == Done && restartInterval > 0 {
        restartsToGo := restartsToGo - 1;
      }
    }
  }

  /** A block not yet reached still has the DC term its slot was made from. */
  lemma {:induction false} StillThere(cis: seq<nat>, blocks: seq<array<int>>, was: seq<seq<int>>, vals: seq<int>)
    requires BlocksOk(blocks) && |was| == |blocks| && Changed(blocks, was, vals) && |vals| < |blocks|
    ensures blocks[|vals|][0] == was[|vals|][0]
  {
    assert blocks[|vals|][..][0] == was[|vals|][0];
  }

  /** (*block)[0] |= p1, if the bit is set. */
  method OrDc(blocks: seq<array<int>>, k: nat, bit: nat, al: nat, ghost was: seq<seq<int>>, ghost vals: seq<int>)
    requires BlocksOk(blocks) && |was| == |blocks| && Changed(blocks, was, vals) && k == |vals| < |blocks|
    modifies blocks[k]
    ensures |was[k]| == 64 && Changed(blocks, was, vals + [OrBit(was[k][0], bit, al)])
  {
    hide OrBit;
    StillThere([], blocks, was, vals);
    blocks[k][0] := OrBit(blocks[k][0], bit, al);
  }

  lemma {:induction false} RefineStep(b: DcBand, ts: seq<Token>, pred: seq<int>, slots: seq<Slot>)
    requires b.ah != 0 && SlotsOk(b, slots) && |pred| == |b.tbls| && slots != []
    ensures DecodeMcu(b, ts, pred, slots) ==
      match ReadBits(ts, 1)
      case NoData => McuStarved([])
      case WrongKind => McuGarbled
      case Got(bit, ts1) => Push(OrBit(slots[0].d, bit, b.al), DecodeMcu(b, ts1, pred, slots[1..]))
  {
    hide OrBit;
  }

  function PushAll(vals: seq<int>, o: McuOut): McuOut {
    if o.McuGarbled? then o else o.(vals := vals + o.vals)
  }

  lemma {:induction false} PushNone(o: McuOut)
    ensures PushAll([], o) == o
  {
    if !o.McuGarbled? {
      assert [] + o.vals == o.vals;
    }
  }

  lemma {:induction false} PushEnds(vals: seq<int>, ts: seq<Token>, pred: seq<int>)
    ensures PushAll(vals, McuStarved([])) == McuStarved(vals) && PushAll(vals, McuGarbled) == McuGarbled
    ensures PushAll(vals, McuDone(ts, pred, [])) == McuDone(ts, pred, vals)
  {
    assert vals + [] == vals;
  }

  lemma {:induction false} PushMore(vals: seq<int>, v: int, o: McuOut)
    ensures PushAll(vals, Push(v, o)) == PushAll(vals + [v], o)
  {
    if !o.McuGarbled? {
      Assoc3(vals, [v], o.vals);
    }
  }

  lemma {:induction false} NoSlots(b: DcBand, ts: seq<Token>, pred: seq<int>)
    requires |pred| == |b.tbls|
    ensures DecodeMcu(b, ts, pred, []) == McuDone(ts, pred, [])
  {
  }

  lemma {:induction false} FirstStep(b: DcBand, ts: seq<Token>, pred: seq<int>, slots: seq<Slot>)
    requires b.ah == 0 && SlotsOk(b, slots) && |pred| == |b.tbls| && slots != []
    ensures var ci := slots[0].ci;
      DecodeMcu(b, ts, pred, slots) ==
      match ReadDiff(ts, Dc(b.tbls[ci]))
      case DiffNone => McuStarved([])
      case DiffWrong => McuGarbled
      case DiffGot(diff, ts1) =>
        Push((diff + pred[ci]) * Pow2(b.al), DecodeMcu(b, ts1, pred[ci := diff + pred[ci]], slots[1..]))
  {
    hide ReadDiff, Pow2;
  }
}
