// DC scans (section G.1.2.1 of ITU-T T.81): predicted differences of point-transformed
// values, then one refinement bit per block.
module DcScan {
  import opened Arith
  import opened Coefficients
  import opened Tokens

  /** Parameters of a DC scan; tbls gives each scan component's Huffman table. */
  datatype DcBand = DcBand(ah: nat, al: nat, tbls: seq<nat>)

  /** One block of an MCU as the encoder sees it: scan component and DC value. */
  datatype Visit = Visit(ci: nat, v: int)

  /** The same block as the decoder sees it: d is the DC value it has so far. */
  datatype Slot = Slot(ci: nat, d: int)

  /** The symbol and bits of a DC difference. */
  function DiffTokens(tbl: Table, diff: int): seq<Token> {
    var n := NBits(Abs(diff));
    [Sym(tbl, n)] + if n > 0 then [Bits(MagnitudeBits(diff, n), n)] else []
  }

  datatype DiffRead = DiffGot(diff: int, rest: seq<Token>) | DiffNone | DiffWrong

  function ReadDiff(ts: seq<Token>, tbl: Table): (o: DiffRead)
    ensures o.DiffGot? ==> |o.rest| < |ts|
  {
    match ReadSym(ts, tbl)
    case NoSym => DiffNone
    case WrongSym => DiffWrong
    case GotSym(s, ts1) =>
      if s == 0 then DiffGot(0, ts1)
      else match ReadBits(ts1, s)
        case NoData => DiffNone
        case WrongKind => DiffWrong
        case Got(r, ts2) => DiffGot(HuffExtend(r, s), ts2)
  }

  lemma {:induction false} DiffRoundTrip(tbl: Table, diff: int, rest: seq<Token>)
    ensures ReadDiff(DiffTokens(tbl, diff) + rest, tbl) == DiffGot(diff, rest)
  {
    var n, ts := NBits(Abs(diff)), DiffTokens(tbl, diff) + rest;
    if diff == 0 {
      assert ts == [Sym(tbl, 0)] + rest;
      assert ts[1..] == rest;
    } else {
      MagnitudeRoundTrip(diff);
      assert ts == [Sym(tbl, n), Bits(MagnitudeBits(diff, n), n)] + rest;
      assert ts[1..][1..] == rest;
    }
    hide MagnitudeBits, HuffExtend, NBits;
  }

  // ----- one MCU -----

  ghost predicate VisitsOk(b: DcBand, mcu: seq<Visit>) {
    forall i :: 0 <= i < |mcu| ==> mcu[i].ci < |b.tbls|
  }

  function FirstTokens(b: DcBand, pred: seq<int>, mcu: seq<Visit>): seq<Token>
    requires VisitsOk(b, mcu) && |pred| == |b.tbls|
    decreases |mcu|
  {
    if mcu == [] then []
    else
      var x := mcu[0];
      var t := DcPoint(x.v, b.al);
      DiffTokens(Dc(b.tbls[x.ci]), t - pred[x.ci]) + FirstTokens(b, pred[x.ci := t], mcu[1..])
  }

  /** last_dc_val after an MCU. */
  function PredAfter(b: DcBand, pred: seq<int>, mcu: seq<Visit>): (p: seq<int>)
    requires VisitsOk(b, mcu) && |pred| == |b.tbls|
    ensures |p| == |pred|
    decreases |mcu|
  {
    if mcu == [] then pred else PredAfter(b, pred[mcu[0].ci := DcPoint(mcu[0].v, b.al)], mcu[1..])
  }

  /** The bit of weight 2^al of a two's-complement value. */
  function BitAt(v: int, al: nat): nat {
    (v / Pow2(al)) % 2
  }

  function RefineTokens(b: DcBand, mcu: seq<Visit>): seq<Token> {
    seq(|mcu|, i requires 0 <= i < |mcu| => Bits(BitAt(mcu[i].v, b.al), 1))
  }

  /** d |= 1 << al when the bit read is 1. */
  function OrBit(d: int, bit: nat, al: nat): int {
    if bit != 0 && BitAt(d, al) == 0 then d + Pow2(al) else d
  }

  /** The MCU's DC values; a call that runs out of input has assigned the first few. */
  datatype McuOut = McuDone(ts: seq<Token>, pred: seq<int>, vals: seq<int>) | McuStarved(vals: seq<int>) | McuGarbled

  function Push(v: int, o: McuOut): McuOut {
    if o.McuGarbled? then o else o.(vals := [v] + o.vals)
  }

  predicate SlotsOk(b: DcBand, slots: seq<Slot>) {
    forall i :: 0 <= i < |slots| ==> slots[i].ci < |b.tbls|
  }

  /** decode_mcu_DC_first or decode_mcu_DC_refine over the blocks of one MCU. */
  function DecodeMcu(b: DcBand, ts: seq<Token>, pred: seq<int>, slots: seq<Slot>): (o: McuOut)
    requires SlotsOk(b, slots) && |pred| == |b.tbls|
    ensures o.McuDone? ==> |o.pred| == |pred| && |o.vals| == |slots|
    ensures o.McuStarved? ==> |o.vals| < |slots|
    decreases |slots|
  {
    if slots == [] then McuDone(ts, pred, [])
    else
      var x := slots[0];
      if b.ah == 0 then
        match ReadDiff(ts, Dc(b.tbls[x.ci]))
        case DiffNone => McuStarved([])
        case DiffWrong => McuGarbled
        case DiffGot(diff, ts1) =>
          var s := diff + pred[x.ci];
          Push(s * Pow2(b.al), DecodeMcu(b, ts1, pred[x.ci := s], slots[1..]))
      else
        match ReadBits(ts, 1)
        case NoData => McuStarved([])
        case WrongKind => McuGarbled
        case Got(bit, ts1) => Push(OrBit(x.d, bit, b.al), DecodeMcu(b, ts1, pred, slots[1..]))
  }

  function McuTokens(b: DcBand, pred: seq<int>, mcu: seq<Visit>): seq<Token>
    requires VisitsOk(b, mcu) && |pred| == |b.tbls|
  {
    if b.ah == 0 then FirstTokens(b, pred, mcu) else RefineTokens(b, mcu)
  }

  function McuPred(b: DcBand, pred: seq<int>, mcu: seq<Visit>): (p: seq<int>)
    requires VisitsOk(b, mcu) && |pred| == |b.tbls|
    ensures |p| == |pred|
  {
    if b.ah == 0 then PredAfter(b, pred, mcu) else pred
  }

  function Shown(b: DcBand, mcu: seq<Visit>): seq<int> {
    seq(|mcu|, i requires 0 <= i < |mcu| => DcShown(mcu[i].v, b.al))
  }

  /** Both sides visit the same blocks; before a refinement the decoder shows bit al + 1. */
  ghost predicate McuOk(b: DcBand, mcu: seq<Visit>, slots: seq<Slot>) {
    && VisitsOk(b, mcu) && SlotsOk(b, slots) && |slots| == |mcu|
    && forall i :: 0 <= i < |mcu| ==>
      slots[i].ci == mcu[i].ci && (b.ah != 0 ==> slots[i].d == DcShown(mcu[i].v, b.al + 1))
  }

  /** The quotients of v by p and by 2p, and what multiples of them read back as. */
  lemma {:induction false} DcQuotients(v: int, p: nat)
    requires p > 0
    ensures v / p == 2 * (v / (2 * p)) + (v / p) % 2
    ensures (v / (2 * p)) * (2 * p) / p == 2 * (v / (2 * p))
    ensures (v / (2 * p)) * (2 * p) + ((v / p) % 2) * p == (v / p) * p
  {
    var q, s := v / p, v % p;
    assert v == q * p + s;
    var h, bit := q / 2, q % 2;
    TwiceAndBit(q, h, bit, p);
    DivUnique(v, 2 * p, h, bit * p + s);
    DivUnique(h * (2 * p), p, 2 * h, 0);
  }

  lemma {:induction false} TwiceAndBit(q: int, h: int, bit: int, p: nat)
    requires q == 2 * h + bit && 0 <= bit <= 1
    ensures q * p == h * (2 * p) + bit * p && h * (2 * p) == (2 * h) * p && 0 <= bit * p <= p
  {
  }

  /** One more bit of a DC value, two's complement. */
  lemma {:induction false} DcOneMoreBit(v: int, al: nat)
    ensures OrBit(DcShown(v, al + 1), BitAt(v, al), al) == DcShown(v, al)
  {
    DcQuotients(v, Pow2(al));
    assert Pow2(al + 1) == 2 * Pow2(al);
    hide Pow2;
    if BitAt(v, al) == 1 {
      assert 1 * Pow2(al) == Pow2(al);
    } else {
      assert 0 * Pow2(al) == 0;
    }
  }

  lemma {:induction false} FirstMcuDecodes(b: DcBand, pred: seq<int>, mcu: seq<Visit>, slots: seq<Slot>, rest: seq<Token>)
    requires McuOk(b, mcu, slots) && |pred| == |b.tbls| && b.ah == 0
    ensures DecodeMcu(b, FirstTokens(b, pred, mcu) + rest, pred, slots) == McuDone(rest, PredAfter(b, pred, mcu), Shown(b, mcu))
    decreases |mcu|
  {
    hide Pow2, DiffTokens, ReadDiff, RefineTokens, OrBit;
    if mcu == [] {
      assert [] + rest == rest;
    } else {
      var x := mcu[0];
      assert Shown(b, mcu) == [DcShown(x.v, b.al)] + Shown(b, mcu[1..]);
      var t, tbl := DcPoint(x.v, b.al), Dc(b.tbls[x.ci]);
      assert t * Pow2(b.al) == DcShown(x.v, b.al);
      hide DcPoint, DcShown, Shown;
      var later := FirstTokens(b, pred[x.ci := t], mcu[1..]);
      Assoc3(DiffTokens(tbl, t - pred[x.ci]), later, rest);
      DiffRoundTrip(tbl, t - pred[x.ci], later + rest);
      FirstMcuDecodes(b, pred[x.ci := t], mcu[1..], slots[1..], rest);
    }
  }

  lemma {:induction false} RefineMcuDecodes(b: DcBand, pred: seq<int>, mcu: seq<Visit>, slots: seq<Slot>, rest: seq<Token>)
    requires McuOk(b, mcu, slots) && |pred| == |b.tbls| && b.ah != 0
    ensures DecodeMcu(b, RefineTokens(b, mcu) + rest, pred, slots) == McuDone(rest, pred, Shown(b, mcu))
    decreases |mcu|
  {
    hide Pow2, DiffTokens, ReadDiff, OrBit, BitAt, DcShown, FirstTokens;
    if mcu == [] {
      assert RefineTokens(b, []) + rest == rest;
    } else {
      var x := mcu[0];
      assert Shown(b, mcu) == [DcShown(x.v, b.al)] + Shown(b, mcu[1..]);
      DcOneMoreBit(x.v, b.al);
      var all := RefineTokens(b, mcu) + rest;
      assert all[1..] == RefineTokens(b, mcu[1..]) + rest;
      assert ReadBits(all, 1) == Got(BitAt(x.v, b.al), RefineTokens(b, mcu[1..]) + rest);
      RefineMcuDecodes(b, pred, mcu[1..], slots[1..], rest);
    }
  }

  lemma {:induction false} McuDecodes(b: DcBand, pred: seq<int>, mcu: seq<Visit>, slots: seq<Slot>, rest: seq<Token>)
    requires McuOk(b, mcu, slots) && |pred| == |b.tbls|
    ensures DecodeMcu(b, McuTokens(b, pred, mcu) + rest, pred, slots)
         == McuDone(rest, McuPred(b, pred, mcu), Shown(b, mcu))
  {
    hide DecodeMcu, FirstTokens, RefineTokens, Shown, PredAfter;
    if b.ah == 0 {
      FirstMcuDecodes(b, pred, mcu, slots, rest);
    } else {
      RefineMcuDecodes(b, pred, mcu, slots, rest);
    }
  }

  // ----- suspension -----

  /** The decoder's blocks after a call that assigned the first values. */
  function Updated(slots: seq<Slot>, vals: seq<int>): (u: seq<Slot>)
    requires |vals| <= |slots|
    ensures |u| == |slots|
  {
    seq(|slots|, i requires 0 <= i < |slots| => if i < |vals| then slots[i].(d := vals[i]) else slots[i])
  }

  lemma {:induction false} OrBitIdempotent(d: int, bit: nat, al: nat)
    ensures OrBit(OrBit(d, bit, al), bit, al) == OrBit(d, bit, al)
  {
    if bit != 0 && BitAt(d, al) == 0 {
      var p := Pow2(al);
      var q, s := d / p, d % p;
      assert d == q * p + s;
      assert (q + 1) * p == q * p + p;
      DivUnique(d + p, p, q + 1, s);
    }
  }

  lemma {:induction false} DiffMonotone(ts: seq<Token>, more: seq<Token>, tbl: Table)
    ensures ReadDiff(ts, tbl).DiffGot? ==>
      ReadDiff(ts + more, tbl) == ReadDiff(ts, tbl).(rest := ReadDiff(ts, tbl).rest + more)
  {
    hide HuffExtend;
    if ts != [] {
      assert (ts + more)[0] == ts[0] && (ts + more)[1..] == ts[1..] + more;
      if |ts| > 1 {
        assert (ts[1..] + more)[0] == ts[1] && (ts[1..] + more)[1..] == ts[1..][1..] + more;
      }
    }
  }

  /** Retrying a suspended MCU with more input, on blocks the failed call half changed, gives
      what one call on the untouched blocks would have given. */
  lemma {:induction false} McuResumes(b: DcBand, ts: seq<Token>, more: seq<Token>, pred: seq<int>, slots: seq<Slot>)
    requires SlotsOk(b, slots) && |pred| == |b.tbls|
    requires DecodeMcu(b, ts, pred, slots).McuStarved?
    ensures SlotsOk(b, Updated(slots, DecodeMcu(b, ts, pred, slots).vals))
    ensures DecodeMcu(b, ts + more, pred, Updated(slots, DecodeMcu(b, ts, pred, slots).vals))
         == DecodeMcu(b, ts + more, pred, slots)
    decreases |slots|
  {
    hide Pow2, OrBit, ReadDiff;
    var vals := DecodeMcu(b, ts, pred, slots).vals;
    var u, x := Updated(slots, vals), slots[0];
    if vals == [] {
      assert u == slots;
    } else {
      assert u[1..] == Updated(slots[1..], vals[1..]);
      if b.ah == 0 {
        DiffMonotone(ts, more, Dc(b.tbls[x.ci]));
        var o := ReadDiff(ts, Dc(b.tbls[x.ci]));
        McuResumes(b, o.rest, more, pred[x.ci := o.diff + pred[x.ci]], slots[1..]);
      } else {
        assert (ts + more)[1..] == ts[1..] + more;
        OrBitIdempotent(x.d, ts[0].v, b.al);
        McuResumes(b, ts[1..], more, pred, slots[1..]);
      }
    }
  }

  lemma {:induction false} DiffFails(ts: seq<Token>, more: seq<Token>, tbl: Table)
    requires ReadDiff(ts, tbl) == DiffWrong
    ensures ReadDiff(ts + more, tbl) == DiffWrong
  {
    hide HuffExtend;
    assert (ts + more)[0] == ts[0] && (ts + more)[1..] == ts[1..] + more;
    if |ts| > 1 {
      assert (ts[1..] + more)[0] == ts[1];
    }
  }

  /** More input changes neither a complete MCU nor a wrong token. */
  lemma {:induction false} McuLonger(b: DcBand, ts: seq<Token>, more: seq<Token>, pred: seq<int>, slots: seq<Slot>)
    requires SlotsOk(b, slots) && |pred| == |b.tbls|
    ensures match DecodeMcu(b, ts, pred, slots)
      case McuDone(ts1, pred1, vals) => DecodeMcu(b, ts + more, pred, slots) == McuDone(ts1 + more, pred1, vals)
      case McuGarbled => DecodeMcu(b, ts + more, pred, slots) == McuGarbled
      case McuStarved(_) => true
    decreases |slots|
  {
    hide Pow2, OrBit, ReadDiff;
    if slots != [] {
      var x := slots[0];
      if b.ah == 0 {
        DiffMonotone(ts, more, Dc(b.tbls[x.ci]));
        var o := ReadDiff(ts, Dc(b.tbls[x.ci]));
        if o == DiffWrong {
          DiffFails(ts, more, Dc(b.tbls[x.ci]));
        } else if o.DiffGot? {
          McuLonger(b, o.rest, more, pred[x.ci := o.diff + pred[x.ci]], slots[1..]);
        }
      } else if ts != [] {
        assert (ts + more)[1..] == ts[1..] + more;
        McuLonger(b, ts[1..], more, pred, slots[1..]);
      }
    }
  }

  /** Decode with what has arrived; whenever that starves, wait for the next arrival and call
      again with the same permanent state and the blocks the failed call left. */
  function Attempts(b: DcBand, have: seq<Token>, arrivals: seq<seq<Token>>, pred: seq<int>, slots: seq<Slot>): McuOut
    requires SlotsOk(b, slots) && |pred| == |b.tbls|
    decreases |arrivals|
  {
    match DecodeMcu(b, have, pred, slots)
    case McuStarved(vals) =>
      if arrivals == [] then McuStarved(vals)
      else
        assert SlotsOk(b, Updated(slots, vals));
        Attempts(b, have + arrivals[0], arrivals[1..], pred, Updated(slots, vals))
    case McuDone(ts1, pred1, vals) => McuDone(ts1 + Flat(arrivals), pred1, vals)
    case McuGarbled => McuGarbled
  }

  /** Decoding a DC MCU does not depend on how its input arrives. */
  lemma {:induction false} ArrivalIndependent(b: DcBand, have: seq<Token>, arrivals: seq<seq<Token>>, pred: seq<int>, slots: seq<Slot>)
    requires SlotsOk(b, slots) && |pred| == |b.tbls|
    ensures Attempts(b, have, arrivals, pred, slots) == DecodeMcu(b, have + Flat(arrivals), pred, slots)
    decreases |arrivals|
  {
    hide DecodeMcu;
    McuLonger(b, have, Flat(arrivals), pred, slots);
    var o := DecodeMcu(b, have, pred, slots);
    if o.McuStarved? {
      McuResumes(b, have, Flat(arrivals), pred, slots);
      if arrivals == [] {
        assert have + [] == have;
      } else {
        Assoc3(have, arrivals[0], Flat(arrivals[1..]));
        ArrivalIndependent(b, have + arrivals[0], arrivals[1..], pred, Updated(slots, o.vals));
      }
    }
  }

  // ----- the scan -----

  function NoPred(b: DcBand): (p: seq<int>)
    ensures |p| == |b.tbls|
  {
    seq(|b.tbls|, _ => 0)
  }

  ghost predicate VisitEventsOk(b: DcBand, evs: seq<Event<seq<Visit>>>) {
    forall i :: 0 <= i < |evs| && evs[i].Item? ==> VisitsOk(b, evs[i].x)
  }

  ghost predicate SlotEventsOk(b: DcBand, evs: seq<Event<seq<Slot>>>) {
    forall i :: 0 <= i < |evs| && evs[i].Item? ==> SlotsOk(b, evs[i].x)
  }

  /** Everything a DC scan emits; a restart marker resets the predictions. */
  function ScanTokens(b: DcBand, pred: seq<int>, evs: seq<Event<seq<Visit>>>): seq<Token>
    requires VisitEventsOk(b, evs) && |pred| == |b.tbls|
    decreases |evs|
  {
    if evs == [] then []
    else match evs[0]
      case Restart(num) => [Rst(num)] + ScanTokens(b, NoPred(b), evs[1..])
      case Item(mcu) => McuTokens(b, pred, mcu) + ScanTokens(b, McuPred(b, pred, mcu), evs[1..])
  }

  datatype DcScanOut = Decoded(mcus: seq<seq<int>>, ts: seq<Token>) | Failed

  function Cons(m: seq<int>, o: DcScanOut): DcScanOut {
    if o.Decoded? then Decoded([m] + o.mcus, o.ts) else Failed
  }

  function DecodeScan(b: DcBand, ts: seq<Token>, pred: seq<int>, evs: seq<Event<seq<Slot>>>): DcScanOut
    requires SlotEventsOk(b, evs) && |pred| == |b.tbls|
    decreases |evs|
  {
    if evs == [] then Decoded([], ts)
    else match evs[0]
      case Restart(num) =>
        if ts != [] && ts[0] == Rst(num) then DecodeScan(b, ts[1..], NoPred(b), evs[1..]) else Failed
      case Item(slots) =>
        match DecodeMcu(b, ts, pred, slots)
        case McuDone(ts1, pred1, vals) => Cons(vals, DecodeScan(b, ts1, pred1, evs[1..]))
        case _ => Failed
  }

  /** The events of the two sides of a scan belong together. */
  ghost predicate EventsMatch(b: DcBand, evs: seq<Event<seq<Visit>>>, devs: seq<Event<seq<Slot>>>) {
    && |evs| == |devs|
    && forall i :: 0 <= i < |evs| ==>
      if evs[i].Item? then devs[i].Item? && McuOk(b, evs[i].x, devs[i].x) else devs[i] == Restart(evs[i].num)
  }

  lemma {:induction false} MatchIsOk(b: DcBand, evs: seq<Event<seq<Visit>>>, devs: seq<Event<seq<Slot>>>)
    requires EventsMatch(b, evs, devs)
    ensures VisitEventsOk(b, evs) && SlotEventsOk(b, devs)
  {
  }

  function ScanShown(b: DcBand, evs: seq<Event<seq<Visit>>>): seq<seq<int>> {
    if evs == [] then []
    else (if evs[0].Item? then [Shown(b, evs[0].x)] else []) + ScanShown(b, evs[1..])
  }

  /** Main result for DC: a first scan shows floor(v / 2^al) * 2^al for every block, a
      refinement scan takes bit al + 1 to bit al. */
  lemma {:induction false} ScanDecodes(b: DcBand, pred: seq<int>, evs: seq<Event<seq<Visit>>>, devs: seq<Event<seq<Slot>>>)
    requires EventsMatch(b, evs, devs) && |pred| == |b.tbls|
    ensures VisitEventsOk(b, evs) && SlotEventsOk(b, devs)
    ensures DecodeScan(b, ScanTokens(b, pred, evs), pred, devs) == Decoded(ScanShown(b, evs), [])
    decreases |evs|
  {
    MatchIsOk(b, evs, devs);
    if evs != [] {
      assert if evs[0].Item? then devs[0].Item? && McuOk(b, evs[0].x, devs[0].x) else devs[0] == Restart(evs[0].num);
      hide McuTokens, DecodeMcu, Shown, NoPred, McuPred;
      if evs[0].Restart? {
        ScanDecodes(b, NoPred(b), evs[1..], devs[1..]);
        var later := ScanTokens(b, NoPred(b), evs[1..]);
        assert ([Rst(evs[0].num)] + later)[1..] == later;
      } else {
        var pred1 := McuPred(b, pred, evs[0].x);
        ScanDecodes(b, pred1, evs[1..], devs[1..]);
        McuDecodes(b, pred, evs[0].x, devs[0].x, ScanTokens(b, pred1, evs[1..]));
      }
    }
  }

  ghost predicate McusMatch(b: DcBand, mcus: seq<seq<Visit>>, slots: seq<seq<Slot>>) {
    |mcus| == |slots| && forall i :: 0 <= i < |mcus| ==> McuOk(b, mcus[i], slots[i])
  }

  lemma {:induction false} RestartsMatch(b: DcBand, mcus: seq<seq<Visit>>, slots: seq<seq<Slot>>, interval: nat, togo: nat, num: nat)
    requires McusMatch(b, mcus, slots)
    ensures EventsMatch(b, WithRestarts(mcus, interval, togo, num), WithRestarts(slots, interval, togo, num))
    ensures ScanShown(b, WithRestarts(mcus, interval, togo, num))
         == seq(|mcus|, i requires 0 <= i < |mcus| => Shown(b, mcus[i]))
    decreases |mcus|, togo == 0
  {
    hide Shown, McuOk;
    if mcus != [] {
      if interval > 0 && togo == 0 {
        RestartsMatch(b, mcus, slots, interval, interval, (num + 1) % 8);
      } else {
        RestartsMatch(b, mcus[1..], slots[1..], interval, if interval > 0 then togo - 1 else togo, num);
      }
    }
  }

  function PassTokens(b: DcBand, mcus: seq<seq<Visit>>, interval: nat): seq<Token>
    requires forall i :: 0 <= i < |mcus| ==> VisitsOk(b, mcus[i])
  {
    VisitsWithRestarts(b, mcus, interval, interval, 0);
    ScanTokens(b, NoPred(b), WithRestarts(mcus, interval, interval, 0))
  }

  lemma {:induction false} VisitsWithRestarts(b: DcBand, mcus: seq<seq<Visit>>, interval: nat, togo: nat, num: nat)
    requires forall i :: 0 <= i < |mcus| ==> VisitsOk(b, mcus[i])
    ensures VisitEventsOk(b, WithRestarts(mcus, interval, togo, num))
    decreases |mcus|, togo == 0
  {
    if mcus != [] {
      assert VisitsOk(b, mcus[0]);
      hide VisitsOk;
      if interval > 0 && togo == 0 {
        VisitsWithRestarts(b, mcus, interval, interval, (num + 1) % 8);
      } else {
        VisitsWithRestarts(b, mcus[1..], interval, if interval > 0 then togo - 1 else togo, num);
      }
    }
  }

  lemma {:induction false} SlotsWithRestarts(b: DcBand, slots: seq<seq<Slot>>, interval: nat, togo: nat, num: nat)
    requires forall i :: 0 <= i < |slots| ==> SlotsOk(b, slots[i])
    ensures SlotEventsOk(b, WithRestarts(slots, interval, togo, num))
    decreases |slots|, togo == 0
  {
    if slots != [] {
      assert SlotsOk(b, slots[0]);
      hide SlotsOk;
      if interval > 0 && togo == 0 {
        SlotsWithRestarts(b, slots, interval, interval, (num + 1) % 8);
      } else {
        SlotsWithRestarts(b, slots[1..], interval, if interval > 0 then togo - 1 else togo, num);
      }
    }
  }

  function DecodePass(b: DcBand, ts: seq<Token>, slots: seq<seq<Slot>>, interval: nat): DcScanOut
    requires forall i :: 0 <= i < |slots| ==> SlotsOk(b, slots[i])
  {
    SlotsWithRestarts(b, slots, interval, interval, 0);
    DecodeScan(b, ts, NoPred(b), WithRestarts(slots, interval, interval, 0))
  }

  /** ScanDecodes for a scan of given MCUs and restart interval. */
  lemma {:induction false} PassDecodes(b: DcBand, mcus: seq<seq<Visit>>, slots: seq<seq<Slot>>, interval: nat)
    requires McusMatch(b, mcus, slots)
    requires forall i :: 0 <= i < |mcus| ==> VisitsOk(b, mcus[i])
    requires forall i :: 0 <= i < |slots| ==> SlotsOk(b, slots[i])
    ensures DecodePass(b, PassTokens(b, mcus, interval), slots, interval)
         == Decoded(seq(|mcus|, i requires 0 <= i < |mcus| => Shown(b, mcus[i])), [])
  {
    var evs, devs := WithRestarts(mcus, interval, interval, 0), WithRestarts(slots, interval, interval, 0);
    RestartsMatch(b, mcus, slots, interval, interval, 0);
    ScanDecodes(b, NoPred(b), evs, devs);
    hide ScanShown, Shown, ScanTokens, DecodeScan, NoPred;
  }
}
