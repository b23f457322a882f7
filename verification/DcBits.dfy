// DC scans read from bits instead of tokens, with the same values found.
module DcBits {
  import opened Arith
  import opened BitStrings
  import opened BitPacking
  import opened Coefficients
  import opened Tokens
  import opened SequentialScan
  import opened SequentialStream
  import opened TokenBytes
  import D = DcScan

  // ----- decoding -----

  datatype DiffAnswer = Diff(diff: int, s: Stream) | NoDiff

  ghost function AskDiff(x: Tables, s: Stream, tbl: Table): (o: DiffAnswer)
    requires Readable(x)
  {
    match AskSymbol(x, s, tbl)
    case NoAnswer => NoDiff
    case Answer(n, s1) =>
      if n == 0 then Diff(0, s1)
      else match AskBits(s1, n)
        case NoAnswer => NoDiff
        case Answer(v, s2) => Diff(HuffExtend(v, n), s2)
  }

  datatype McuBits = McuRead(s: Stream, pred: seq<int>, vals: seq<int>) | McuCut

  function Push(v: int, o: McuBits): McuBits {
    if o.McuRead? then o.(vals := [v] + o.vals) else o
  }

  /** decode_mcu_DC_first or decode_mcu_DC_refine over the blocks of one MCU. */
  ghost function ReadMcu(x: Tables, b: D.DcBand, s: Stream, pred: seq<int>, slots: seq<D.Slot>): (o: McuBits)
    requires Readable(x) && D.SlotsOk(b, slots) && |pred| == |b.tbls|
    ensures o.McuRead? ==> |o.pred| == |pred| && |o.vals| == |slots|
    decreases |slots|
  {
    if slots == [] then McuRead(s, pred, [])
    else
      var y := slots[0];
      if b.ah == 0 then
        match AskDiff(x, s, Dc(b.tbls[y.ci]))
        case NoDiff => McuCut
        case Diff(diff, s1) =>
          var v := diff + pred[y.ci];
          Push(v * Pow2(b.al), ReadMcu(x, b, s1, pred[y.ci := v], slots[1..]))
      else
        match AskBits(s, 1)
        case NoAnswer => McuCut
        case Answer(bit, s1) => Push(D.OrBit(y.d, bit, b.al), ReadMcu(x, b, s1, pred, slots[1..]))
  }

  datatype BitsOut = AllRead(mcus: seq<seq<int>>, s: Stream) | NotRead

  function Cons(m: seq<int>, o: BitsOut): BitsOut {
    if o.AllRead? then AllRead([m] + o.mcus, o.s) else NotRead
  }

  ghost function ReadScan(x: Tables, b: D.DcBand, s: Stream, pred: seq<int>, evs: seq<Event<seq<D.Slot>>>): BitsOut
    requires Readable(x) && D.SlotEventsOk(b, evs) && |pred| == |b.tbls|
    decreases |evs|
  {
    if evs == [] then AllRead([], s)
    else match evs[0]
      case Restart(num) =>
        if s.ending == 0xD0 + num then ReadScan(x, b, Open(s.after), D.NoPred(b), evs[1..]) else NotRead
      case Item(slots) =>
        match ReadMcu(x, b, s, pred, slots)
        case McuRead(s1, pred1, vals) => Cons(vals, ReadScan(x, b, s1, pred1, evs[1..]))
        case McuCut => NotRead
  }

  /** A scan from its bytes. */
  ghost function DecodePass(x: Tables, b: D.DcBand, input: seq<Byte>, slots: seq<seq<D.Slot>>, interval: nat): BitsOut
    requires Readable(x) && forall i :: 0 <= i < |slots| ==> D.SlotsOk(b, slots[i])
  {
    D.SlotsWithRestarts(b, slots, interval, interval, 0);
    ReadScan(x, b, Open(input), D.NoPred(b), WithRestarts(slots, interval, interval, 0))
  }

  // ----- the same values as from tokens -----

  lemma {:induction false} DiffSame(x: Tables, s: Stream, ts: seq<Token>, tbl: Table, e: Stream)
    requires Readable(x) && Leads(x, s, ts, e)
    ensures var o := D.ReadDiff(ts, tbl);
      o.DiffGot? ==> var p := AskDiff(x, s, tbl); p.Diff? && p.diff == o.diff && Leads(x, p.s, o.rest, e)
  {
    hide Readable, Leads, AskSymbol, AskBits, HuffExtend;
    LeadsSym(x, s, ts, e, tbl);
    var g := ReadSym(ts, tbl);
    if g.GotSym? && g.s != 0 {
      LeadsBits(x, AskSymbol(x, s, tbl).s, g.rest, e, g.s);
    }
  }

  lemma {:induction false} McuSame(x: Tables, b: D.DcBand, s: Stream, ts: seq<Token>, pred: seq<int>, slots: seq<D.Slot>, e: Stream)
    requires Readable(x) && Leads(x, s, ts, e) && D.SlotsOk(b, slots) && |pred| == |b.tbls|
    ensures var o := D.DecodeMcu(b, ts, pred, slots);
      o.McuDone? ==>
        var p := ReadMcu(x, b, s, pred, slots);
        p.McuRead? && p.pred == o.pred && p.vals == o.vals && Leads(x, p.s, o.ts, e)
    decreases |slots|
  {
    hide Readable, Leads, AskDiff, D.ReadDiff, AskBits, Pow2, D.OrBit;
    if slots != [] {
      var y := slots[0];
      if b.ah == 0 {
        DiffSame(x, s, ts, Dc(b.tbls[y.ci]), e);
        var o, p := D.ReadDiff(ts, Dc(b.tbls[y.ci])), AskDiff(x, s, Dc(b.tbls[y.ci]));
        if o.DiffGot? {
          McuSame(x, b, p.s, o.rest, pred[y.ci := o.diff + pred[y.ci]], slots[1..], e);
        }
      } else {
        LeadsBits(x, s, ts, e, 1);
        var o := ReadBits(ts, 1);
        if o.Got? {
          McuSame(x, b, AskBits(s, 1).s, o.rest, pred, slots[1..], e);
        }
      }
    }
  }

  lemma {:induction false} ScanSame(x: Tables, b: D.DcBand, s: Stream, ts: seq<Token>, pred: seq<int>, evs: seq<Event<seq<D.Slot>>>, e: Stream)
    requires Readable(x) && Leads(x, s, ts, e) && D.SlotEventsOk(b, evs) && |pred| == |b.tbls|
    ensures var o := D.DecodeScan(b, ts, pred, evs);
      o.Decoded? ==> var p := ReadScan(x, b, s, pred, evs); p.AllRead? && p.mcus == o.mcus && Leads(x, p.s, o.ts, e)
    decreases |evs|
  {
    hide Readable, Leads, Open, ReadMcu, D.DecodeMcu, D.NoPred, D.SlotsOk;
    if evs != [] {
      if evs[0].Restart? {
        if ts != [] && ts[0] == Rst(evs[0].num) {
          LeadsRestart(x, s, ts, e, evs[0].num);
          ScanSame(x, b, Open(s.after), ts[1..], D.NoPred(b), evs[1..], e);
        }
      } else {
        McuSame(x, b, s, ts, pred, evs[0].x, e);
        var o, p := D.DecodeMcu(b, ts, pred, evs[0].x), ReadMcu(x, b, s, pred, evs[0].x);
        if o.McuDone? {
          ScanSame(x, b, p.s, o.ts, o.pred, evs[1..], e);
        }
      }
    }
  }

  lemma {:induction false} PassSame(x: Tables, b: D.DcBand, input: seq<Byte>, ts: seq<Token>, slots: seq<seq<D.Slot>>, interval: nat, e: Stream)
    requires Readable(x) && forall i :: 0 <= i < |slots| ==> D.SlotsOk(b, slots[i])
    requires var s := Open(input); Leads(x, s.(bits := s.bits[0..]), ts, e)
    ensures var o := D.DecodePass(b, ts, slots, interval);
      o.Decoded? && o.ts == [] ==> DecodePass(x, b, input, slots, interval) == AllRead(o.mcus, e)
  {
    hide Readable, Open, ReadScan, D.DecodeScan, D.NoPred, D.SlotsOk, WithRestarts;
    var s := Open(input);
    assert s.bits[0..] == s.bits && s.(bits := s.bits) == s;
    D.SlotsWithRestarts(b, slots, interval, interval, 0);
    ScanSame(x, b, s, ts, D.NoPred(b), WithRestarts(slots, interval, interval, 0), e);
  }

  /** A whole DC scan through bytes: every block gets its value down to bit al. */
  lemma {:induction false} PassDecodes(x: Tables, b: D.DcBand, mcus: seq<seq<D.Visit>>, slots: seq<seq<D.Slot>>, interval: nat, tail: seq<Byte>)
    returns (rest: seq<Bit>)
    requires TablesOk(x) && D.McusMatch(b, mcus, slots) && Data(tail) == []
    requires forall i :: 0 <= i < |mcus| ==> D.VisitsOk(b, mcus[i]) && D.SlotsOk(b, slots[i])
    requires AllSendable(x, D.PassTokens(b, mcus, interval))
    ensures Readable(x) && |rest| <= 7
    ensures DecodePass(x, b, StreamBytes(x, [], D.PassTokens(b, mcus, interval)) + tail, slots, interval)
         == AllRead(seq(|mcus|, i requires 0 <= i < |mcus| => D.Shown(b, mcus[i])), Stream(rest, Marker(tail), AfterMarker(tail)))
  {
    var ts := D.PassTokens(b, mcus, interval);
    rest := Found(x, [], ts, tail);
    D.PassDecodes(b, mcus, slots, interval);
    PassSame(x, b, StreamBytes(x, [], ts) + tail, ts, slots, interval, Stream(rest, Marker(tail), AfterMarker(tail)));
    hide TablesOk, Readable, D.PassTokens, D.DecodePass, D.Shown, StreamBytes, Open, DecodePass, AllSendable, D.VisitsOk, D.SlotsOk, D.McusMatch;
  }
}
