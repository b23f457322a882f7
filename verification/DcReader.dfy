// A progressive DC scan as it is decoded from its bytes (jdphuff.c): the DC terms of an MCU are set
// in place through the bit reader, while the input may still be arriving.
module DcReader {
  import opened Arith
  import opened Coefficients
  import opened Tokens
  import opened BitPacking
  import opened HuffmanCodes
  import opened HuffmanDecoding
  import opened DerivedTables
  import opened SequentialScan
  import opened SequentialStream
  import opened TokenReader
  import D = DcScan
  import I = DcDecoder
  import A = AcReader
  import R = BitReader
  import S = SequentialDecoder

  /** A table whose symbols are bit counts. */
  ghost predicate DcTable(x: Tables, tbl: Table, d: DTbl) {
    TableFor(x, tbl, d) && SymbolsUpTo(d.pub, true, Total(d.pub.bits))
  }

  /** The decoder's tables are those of the scan's components. */
  ghost predicate TablesFor(x: Tables, b: D.DcBand, dcs: seq<DTbl>) {
    forall c :: 0 <= c < |b.tbls| ==> b.tbls[c] < |dcs| && DcTable(x, Dc(b.tbls[c]), dcs[b.tbls[c]])
  }

  /** A difference, from the bits: n tokens read. */
  method ReadDiff(rd: R.Reader, ghost x: Tables, d: DTbl, ghost tbl: Table, ghost ts: seq<Token>, ghost later: seq<Byte>, ghost e: Stream)
    returns (ok: bool, diff: int, ghost n: nat)
    requires Follows(rd, x, ts, later, e) && DcTable(x, tbl, d) && D.ReadDiff(ts, tbl).DiffGot?
    modifies rd
    ensures rd.Ending() == old(rd.Ending()) && (!ok ==> rd.Ending().0 == 0) && n <= |ts|
    ensures ok ==> n > 0 && D.ReadDiff(ts[..n], tbl) == D.DiffGot(diff, []) && Follows(rd, x, ts[n..], later, e)
    ensures !ok ==> D.ReadDiff(ts[..n], tbl) == D.DiffNone
  {
    hide Follows, R.Coming, HuffExtend, DTblOk, Readable, R.Listed, SymbolsUpTo;
    diff, n := 0, 0;
    var s, r;
    ok, s := NextSym(rd, x, d, tbl, ts, later, e);
    if !ok {
      return;
    }
    n := 1;
    assert ts[..1] == [ts[0]];
    S.SmallSymbol(d, s);
    if s != 0 {
      ok, r := NextBits(rd, x, s, ts[1..], later, e);
      if !ok {
        return;
      }
      A.TwoRead(ts);
      n := 2;
      diff := HuffExtend(r, s);
    }
  }

  /** Having read got, the MCU is at its k-th block with predictions state and values vals. */
  ghost predicate Read(b: D.DcBand, got: seq<Token>, pred: seq<int>, slots: seq<D.Slot>, state: seq<int>, vals: seq<int>)
    requires D.SlotsOk(b, slots) && |pred| == |state| == |b.tbls| && |vals| <= |slots|
  {
    forall more: seq<Token> ::
      D.DecodeMcu(b, got + more, pred, slots) == I.PushAll(vals, D.DecodeMcu(b, more, state, slots[|vals|..]))
  }

  lemma {:induction false} ReadNone(b: D.DcBand, pred: seq<int>, slots: seq<D.Slot>)
    requires D.SlotsOk(b, slots) && |pred| == |b.tbls|
    ensures Read(b, [], pred, slots, pred, [])
  {
    hide D.DecodeMcu, I.PushAll;
    forall more: seq<Token>
      ensures D.DecodeMcu(b, [] + more, pred, slots) == I.PushAll([], D.DecodeMcu(b, more, pred, slots[0..]))
    {
      assert [] + more == more && slots[0..] == slots;
      I.PushNone(D.DecodeMcu(b, more, pred, slots));
    }
  }

  lemma {:induction false} ReadFirst(b: D.DcBand, got: seq<Token>, pred: seq<int>, slots: seq<D.Slot>, state: seq<int>, vals: seq<int>, part: seq<Token>)
    requires D.SlotsOk(b, slots) && |pred| == |state| == |b.tbls| && |vals| < |slots| && Read(b, got, pred, slots, state, vals) && b.ah == 0
    ensures var ci := slots[|vals|].ci;
      ci < |b.tbls| &&
      match D.ReadDiff(part, Dc(b.tbls[ci]))
      case DiffGot(diff, rest) =>
        rest == [] ==> Read(b, got + part, pred, slots, state[ci := diff + state[ci]], vals + [(diff + state[ci]) * Pow2(b.al)])
      case DiffNone => D.DecodeMcu(b, got + part, pred, slots) == D.McuStarved(vals)
      case DiffWrong => D.DecodeMcu(b, got + part, pred, slots) == D.McuGarbled
  {
    hide D.DecodeMcu, I.PushAll, D.ReadDiff, Pow2, D.Push;
    var u := slots[|vals|..];
    assert u[0] == slots[|vals|] && u[1..] == slots[|vals| + 1..];
    var ci := u[0].ci;
    I.FirstStep(b, part, state, u);
    I.PushEnds(vals, [], state);
    match D.ReadDiff(part, Dc(b.tbls[ci]))
    case DiffGot(diff, rest) =>
      if rest == [] {
        var state1, v := state[ci := diff + state[ci]], (diff + state[ci]) * Pow2(b.al);
        forall more: seq<Token>
          ensures D.DecodeMcu(b, (got + part) + more, pred, slots) == I.PushAll(vals + [v], D.DecodeMcu(b, more, state1, slots[|vals + [v]|..]))
        {
          assert (got + part) + more == got + (part + more) && [] + more == more;
          D.DiffMonotone(part, more, Dc(b.tbls[ci]));
          I.FirstStep(b, part + more, state, u);
          I.PushMore(vals, v, D.DecodeMcu(b, more, state1, u[1..]));
        }
      }
    case _ =>
  }

  lemma {:induction false} ReadBit(b: D.DcBand, got: seq<Token>, pred: seq<int>, slots: seq<D.Slot>, state: seq<int>, vals: seq<int>, bit: nat)
    requires D.SlotsOk(b, slots) && |pred| == |state| == |b.tbls| && |vals| < |slots| && Read(b, got, pred, slots, state, vals) && b.ah != 0
    ensures Read(b, got + [Bits(bit, 1)], pred, slots, state, vals + [D.OrBit(slots[|vals|].d, bit, b.al)])
    ensures D.DecodeMcu(b, got, pred, slots) == D.McuStarved(vals)
  {
    hide D.DecodeMcu, I.PushAll, D.OrBit, D.Push;
    var u := slots[|vals|..];
    assert u[0] == slots[|vals|] && u[1..] == slots[|vals| + 1..];
    var v, t := D.OrBit(slots[|vals|].d, bit, b.al), Bits(bit, 1);
    forall more: seq<Token>
      ensures D.DecodeMcu(b, (got + [t]) + more, pred, slots) == I.PushAll(vals + [v], D.DecodeMcu(b, more, state, slots[|vals + [v]|..]))
    {
      var m := [t] + more;
      assert (got + [t]) + more == got + m && m[1..] == more;
      I.RefineStep(b, m, state, u);
      I.PushMore(vals, v, D.DecodeMcu(b, more, state, u[1..]));
    }
    assert got + [] == got;
    I.RefineStep(b, [], state, u);
    I.PushEnds(vals, [], state);
  }

  lemma {:induction false} ReadAll(b: D.DcBand, got: seq<Token>, pred: seq<int>, slots: seq<D.Slot>, state: seq<int>, vals: seq<int>)
    requires D.SlotsOk(b, slots) && |pred| == |state| == |b.tbls| && |vals| == |slots| && Read(b, got, pred, slots, state, vals)
    ensures D.DecodeMcu(b, got, pred, slots) == D.McuDone([], state, vals)
  {
    hide D.DecodeMcu, I.PushAll;
    assert got + [] == got && slots[|vals|..] == [];
    I.NoSlots(b, [], state);
    I.PushEnds(vals, [], state);
  }

  /** What the tokens still to be read have to hold. */
  lemma {:induction false} ReadRest(b: D.DcBand, ts: seq<Token>, n: nat, pred: seq<int>, slots: seq<D.Slot>, state: seq<int>, vals: seq<int>)
    requires D.SlotsOk(b, slots) && |pred| == |state| == |b.tbls| && |vals| < |slots| && n <= |ts| && Read(b, ts[..n], pred, slots, state, vals)
    requires D.DecodeMcu(b, ts, pred, slots).McuDone?
    ensures b.ah == 0 ==> slots[|vals|].ci < |b.tbls| && D.ReadDiff(ts[n..], Dc(b.tbls[slots[|vals|].ci])).DiffGot?
    ensures b.ah != 0 ==> ReadBits(ts[n..], 1).Got?
  {
    hide D.DecodeMcu, I.PushAll, D.Push, D.ReadDiff, D.OrBit, Pow2;
    A.Whole(ts, n);
    var u := slots[|vals|..];
    assert u[0] == slots[|vals|];
    I.PushEnds(vals, [], state);
    if b.ah == 0 {
      I.FirstStep(b, ts[n..], state, u);
    } else {
      I.RefineStep(b, ts[n..], state, u);
    }
  }

  /** decode_mcu_DC_first after the restart check, from the bits: n tokens read. */
  method DecodeFirst(rd: R.Reader, ghost x: Tables, dcs: seq<DTbl>, b: D.DcBand, pred: seq<int>, cis: seq<nat>, blocks: seq<array<int>>,
                     ghost ts: seq<Token>, ghost later: seq<Byte>, ghost e: Stream)
    returns (ok: bool, state: seq<int>, ghost vals: seq<int>, ghost n: nat)
    requires b.ah == 0 && I.Member(b, cis, blocks) && |pred| == |b.tbls| && Follows(rd, x, ts, later, e) && TablesFor(x, b, dcs)
    requires D.DecodeMcu(b, ts, pred, I.Slots(cis, blocks)).McuDone?
    modifies rd, set i | 0 <= i < |blocks| :: blocks[i]
    ensures rd.Ending() == old(rd.Ending()) && (!ok ==> rd.Ending().0 == 0) && n <= |ts|
    ensures I.Changed(blocks, old(I.Contents(blocks)), vals) && (ok ==> Follows(rd, x, ts[n..], later, e))
    ensures D.DecodeMcu(b, ts[..n], pred, old(I.Slots(cis, blocks))) ==
      if ok then D.McuDone([], state, vals) else D.McuStarved(vals)
  {
    hide D.DecodeMcu, D.ReadDiff, I.Slots, I.Changed, I.Contents, Read, Follows, Pow2, DcTable, R.Coming;
    ghost var was, slots := I.Contents(blocks), I.Slots(cis, blocks);
    ok, state, vals, n := true, pred, [], 0;
    I.NothingChanged(blocks);
    ReadNone(b, pred, slots);
    assert ts[..0] == [] && ts[0..] == ts;
    var blkn := 0;
    while blkn < |blocks|
      invariant 0 <= blkn == |vals| <= |blocks| && |state| == |b.tbls| && n <= |ts| && ok && rd.Ending() == old(rd.Ending())
      invariant I.Changed(blocks, was, vals) && Read(b, ts[..n], pred, slots, state, vals) && Follows(rd, x, ts[n..], later, e)
    {
      ReadRest(b, ts, n, pred, slots, state, vals);
      var ci := cis[blkn];
      var diff;
      ghost var c, m := n, 0;
      ok, diff, m := ReadDiff(rd, x, dcs[b.tbls[ci]], Dc(b.tbls[ci]), ts[n..], later, e);
      n := c + m;
      A.Parts(ts, c, m);
      ReadFirst(b, ts[..c], pred, slots, state, vals, ts[c..][..m]);
      if !ok {
        return;
      }
      var s := diff + state[ci];
      state := state[ci := s];
      I.SetDc(blocks, blkn, s * Pow2(b.al), was, vals);
      vals := vals + [s * Pow2(b.al)];
      blkn := blkn + 1;
    }
    ReadAll(b, ts[..n], pred, slots, state, vals);
  }

  /** decode_mcu_DC_refine after the restart check, from the bits: n tokens read. */
  method DecodeRefinement(rd: R.Reader, ghost x: Tables, b: D.DcBand, ghost pred: seq<int>, cis: seq<nat>, blocks: seq<array<int>>,
                          ghost ts: seq<Token>, ghost later: seq<Byte>, ghost e: Stream)
    returns (ok: bool, ghost vals: seq<int>, ghost n: nat)
    requires b.ah != 0 && I.Member(b, cis, blocks) && |pred| == |b.tbls| && Follows(rd, x, ts, later, e)
    requires D.DecodeMcu(b, ts, pred, I.Slots(cis, blocks)).McuDone?
    modifies rd, set i | 0 <= i < |blocks| :: blocks[i]
    ensures rd.Ending() == old(rd.Ending()) && (!ok ==> rd.Ending().0 == 0) && n <= |ts|
    ensures I.Changed(blocks, old(I.Contents(blocks)), vals) && (ok ==> Follows(rd, x, ts[n..], later, e))
    ensures D.DecodeMcu(b, ts[..n], pred, old(I.Slots(cis, blocks))) ==
      if ok then D.McuDone([], pred, vals) else D.McuStarved(vals)
  {
    hide D.DecodeMcu, D.OrBit, I.Slots, I.Changed, I.Contents, Read, Follows, Pow2, R.Coming;
    ghost var was, slots := I.Contents(blocks), I.Slots(cis, blocks);
    ok, vals, n := true, [], 0;
    I.NothingChanged(blocks);
    ReadNone(b, pred, slots);
    assert ts[..0] == [] && ts[0..] == ts;
    var blkn := 0;
    while blkn < |blocks|
      invariant 0 <= blkn == |vals| <= |blocks| && n <= |ts| && ok && rd.Ending() == old(rd.Ending())
      invariant I.Changed(blocks, was, vals) && Read(b, ts[..n], pred, slots, pred, vals) && Follows(rd, x, ts[n..], later, e)
    {
      ReadRest(b, ts, n, pred, slots, pred, vals);
      var bit;
      ok, bit := NextBits(rd, x, 1, ts[n..], later, e);
      ReadBit(b, ts[..n], pred, slots, pred, vals, bit);
      if !ok {
        return;
      }
      A.OneMore(ts, n);
      I.StillThere(cis, blocks, was, vals);
      assert slots[blkn] == D.Slot(cis[blkn], was[blkn][0]);
      I.OrDc(blocks, blkn, bit, b.al, was, vals);
      vals := vals + [D.OrBit(slots[blkn].d, bit, b.al)];
      n := n + 1;
      blkn := blkn + 1;
    }
    ReadAll(b, ts[..n], pred, slots, pred, vals);
  }

  /** One MCU of a DC scan after the restart check, from the bits: n tokens read, all of them by
      a finished MCU. */
  method DecodeMcu(rd: R.Reader, ghost x: Tables, dcs: seq<DTbl>, b: D.DcBand, pred: seq<int>, cis: seq<nat>, blocks: seq<array<int>>,
                   ghost ts: seq<Token>, ghost later: seq<Byte>, ghost e: Stream)
    returns (ok: bool, state: seq<int>, ghost vals: seq<int>, ghost n: nat)
    requires I.Member(b, cis, blocks) && |pred| == |b.tbls| && Follows(rd, x, ts, later, e) && (b.ah == 0 ==> TablesFor(x, b, dcs))
    requires D.DecodeMcu(b, ts, pred, I.Slots(cis, blocks)).McuDone?
    modifies rd, set i | 0 <= i < |blocks| :: blocks[i]
    ensures rd.Ending() == old(rd.Ending()) && (!ok ==> rd.Ending().0 == 0) && n <= |ts|
    ensures I.Changed(blocks, old(I.Contents(blocks)), vals) && (ok ==> Follows(rd, x, ts[n..], later, e))
    ensures D.DecodeMcu(b, ts[..n], pred, old(I.Slots(cis, blocks))) ==
      if ok then D.McuDone([], state, vals) else D.McuStarved(vals)
  {
    hide D.DecodeMcu, I.Slots, I.Changed, I.Contents, Follows, TablesFor, R.Coming;
    state := pred;
    if b.ah == 0 {
      ok, state, vals, n := DecodeFirst(rd, x, dcs, b, pred, cis, blocks, ts, later, e);
    } else {
      ok, vals, n := DecodeRefinement(rd, x, b, pred, cis, blocks, ts, later, e);
    }
  }

  /** Blocks of which the first few DC terms have been assigned. */
  lemma {:induction false} SlotsUpdated(b: D.DcBand, cis: seq<nat>, blocks: seq<array<int>>, slots: seq<D.Slot>, was: seq<seq<int>>, vals: seq<int>)
    requires I.Member(b, cis, blocks) && |was| == |slots| == |blocks| && I.Changed(blocks, was, vals)
    requires forall i :: 0 <= i < |slots| ==> slots[i] == D.Slot(cis[i], was[i][0])
    ensures |vals| <= |slots| && I.Slots(cis, blocks) == D.Updated(slots, vals)
  {
    hide I.Slots;
    forall i | 0 <= i < |blocks|
      ensures I.Slots(cis, blocks)[i] == D.Updated(slots, vals)[i]
    {
      assert blocks[i][..][0] == blocks[i][0];
    }
  }

  /** The blocks a failed call leaves give, with all of the tokens, what they gave as they were. */
  lemma {:induction false} Resumes(b: D.DcBand, ts: seq<Token>, n: nat, pred: seq<int>, slots: seq<D.Slot>, vals: seq<int>)
    requires D.SlotsOk(b, slots) && |pred| == |b.tbls| && n <= |ts| && D.DecodeMcu(b, ts[..n], pred, slots) == D.McuStarved(vals)
    ensures |vals| <= |slots| && D.SlotsOk(b, D.Updated(slots, vals))
    ensures D.DecodeMcu(b, ts, pred, D.Updated(slots, vals)) == D.DecodeMcu(b, ts, pred, slots)
  {
    hide D.DecodeMcu;
    A.Whole(ts, n);
    D.McuResumes(b, ts[..n], ts[n..], pred, slots);
  }

  lemma {:induction false} Finishes(b: D.DcBand, ts: seq<Token>, n: nat, pred: seq<int>, slots: seq<D.Slot>, state: seq<int>, vals: seq<int>)
    requires D.SlotsOk(b, slots) && |pred| == |b.tbls| && n <= |ts| && D.DecodeMcu(b, ts[..n], pred, slots) == D.McuDone([], state, vals)
    ensures D.DecodeMcu(b, ts, pred, slots) == D.McuDone(ts[n..], state, vals)
  {
    hide D.DecodeMcu;
    A.Whole(ts, n);
    D.McuLonger(b, ts[..n], ts[n..], pred, slots);
    assert [] + ts[n..] == ts[n..];
  }
}
