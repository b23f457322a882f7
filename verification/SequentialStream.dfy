// A whole sequential scan as bytes: MCUs, restart markers and padding written by the encoder,
// and the guarantee that the decoder recovers every block from them.
module SequentialStream {
  import opened BitStrings
  import opened BitPacking
  import opened Tokens
  import opened SequentialScan
  import W = BitWriter

  ghost predicate McusOk(x: Tables, comps: nat, evs: seq<Event<seq<Unit>>>) {
    TablesOk(x) && EventsFit(x, comps, evs)
  }

  /** The MCUs refer to existing tables and components. */
  ghost predicate EventsFit(x: Tables, comps: nat, evs: seq<Event<seq<Unit>>>) {
    forall i :: 0 <= i < |evs| ==> EventOk(x, comps, evs[i])
  }

  ghost predicate EventOk(x: Tables, comps: nat, e: Event<seq<Unit>>) {
    if e.Item? then McuOk(x, comps, e.x) else e.num < 8
  }

  function NoPred(comps: nat): (p: seq<int>)
    ensures |p| == comps
  {
    seq(comps, _ => 0)
  }

  /** The bytes of a finished segment. */
  function Finished(bits: seq<Bit>): seq<Byte> {
    Stuff(Pack(bits + W.Padding(|bits|)))
  }

  function RstMarker(num: nat): seq<Byte>
    requires num < 8
  {
    [0xFF, 0xD0 + num]
  }

  /** Everything a scan puts out from the start of the current segment on, of which `bits`
      have been written. */
  ghost function ScanBytes(x: Tables, bits: seq<Bit>, pred: seq<int>, evs: seq<Event<seq<Unit>>>): seq<Byte>
    requires McusOk(x, |pred|, evs)
    decreases |evs|
  {
    if evs == [] then Finished(bits)
    else
      assert EventOk(x, |pred|, evs[0]);
      match evs[0]
      case Restart(num) => Finished(bits) + (RstMarker(num) + ScanBytes(x, [], NoPred(|pred|), evs[1..]))
      case Item(mcu) => ScanBytes(x, bits + AllBits(x, McuTokens(x, pred, mcu)), PredAfter(x, pred, mcu), evs[1..])
  }

  /** Every MCU of the scan can be coded: coefficients in range, and a code for each symbol. */
  ghost predicate Codable(x: Tables, pred: seq<int>, evs: seq<Event<seq<Unit>>>)
    requires McusOk(x, |pred|, evs)
    decreases |evs|
  {
    evs == [] ||
    (assert EventOk(x, |pred|, evs[0]);
     match evs[0]
     case Restart(num) => Codable(x, NoPred(|pred|), evs[1..])
     case Item(mcu) =>
       && McuInRange(x, pred, mcu) && AllWritable(x, McuTokens(x, pred, mcu))
       && Codable(x, PredAfter(x, pred, mcu), evs[1..]))
  }

  // ----- decoding -----

  /** The rest of a segment: its data bits, the marker that ends it and the input after that. */
  datatype Stream = Stream(bits: seq<Bit>, ending: Byte, after: seq<Byte>)

  function Open(input: seq<Byte>): Stream {
    Stream(ToBits(Data(input)), Marker(input), AfterMarker(input))
  }

  ghost predicate SlotEventsOk(x: Tables, comps: nat, evs: seq<Event<seq<Slot>>>) {
    Readable(x) && forall i :: 0 <= i < |evs| && evs[i].Item? ==> SlotsOk(x, comps, evs[i].x)
  }

  datatype ScanOut = Decoded(mcus: seq<seq<seq<int>>>, s: Stream) | Failed

  function Cons(m: seq<seq<int>>, o: ScanOut): ScanOut {
    if o.Decoded? then Decoded([m] + o.mcus, o.s) else Failed
  }

  /** Decoding MCU after MCU; a restart must be announced by the expected marker. */
  ghost function DecodeScan(x: Tables, s: Stream, pred: seq<int>, evs: seq<Event<seq<Slot>>>): ScanOut
    requires SlotEventsOk(x, |pred|, evs)
    decreases |evs|
  {
    if evs == [] then Decoded([], s)
    else match evs[0]
      case Restart(num) =>
        if s.ending == 0xD0 + num then DecodeScan(x, Open(s.after), NoPred(|pred|), evs[1..]) else Failed
      case Item(mcu) =>
        match DecodeMcu(x, s.bits, pred, mcu)
        case McuDone(rest, pred1, blocks) => Cons(blocks, DecodeScan(x, s.(bits := rest), pred1, evs[1..]))
        case McuShort(_) => Failed
  }

  function BlankEvents(evs: seq<Event<seq<Unit>>>): (bs: seq<Event<seq<Slot>>>)
    ensures |bs| == |evs|
  {
    seq(|evs|, i requires 0 <= i < |evs| => if evs[i].Item? then Item(Blanks(evs[i].x)) else Restart(evs[i].num))
  }

  function ScanSources(evs: seq<Event<seq<Unit>>>): seq<seq<seq<int>>> {
    if evs == [] then []
    else (if evs[0].Item? then [Sources(evs[0].x)] else []) + ScanSources(evs[1..])
  }

  lemma {:induction false} BlankEventsOk(x: Tables, comps: nat, evs: seq<Event<seq<Unit>>>)
    requires McusOk(x, comps, evs)
    ensures SlotEventsOk(x, comps, BlankEvents(evs))
  {
    TablesReadable(x);
    forall i | 0 <= i < |evs| && evs[i].Item? ensures SlotsOk(x, comps, BlankEvents(evs)[i].x) {
      assert EventOk(x, comps, evs[i]);
      BlanksOk(x, comps, evs[i].x);
      hide SlotsOk, McuOk, TablesOk, Readable;
    }
  }

  // ----- the byte level -----

  /** A finished segment before something that holds no data: its bits and the padding. */
  lemma {:induction false} FinishedData(bits: seq<Bit>, tail: seq<Byte>)
    requires Data(tail) == []
    ensures var input := Finished(bits) + tail;
      Open(input) == Stream(bits + W.Padding(|bits|), Marker(tail), AfterMarker(tail))
  {
    hide Stuff, Pack, ToBits, Data, Marker, AfterMarker, W.Padding;
    var y := bits + W.Padding(|bits|);
    DataOfStuffed(Pack(y), tail);
    assert Pack(y) + [] == Pack(y);
    PackThenBits(y);
  }

  lemma {:induction false} MarkerTail(num: nat, rest: seq<Byte>)
    requires num < 8
    ensures var tail := RstMarker(num) + rest;
      Data(tail) == [] && Marker(tail) == 0xD0 + num && AfterMarker(tail) == rest
  {
    var tail := RstMarker(num) + rest;
    assert tail[1..] == [0xD0 + num] + rest;
    assert SkipFF(tail[1..]) == tail[1..];
    assert ([(0xD0 + num) as Byte] + rest)[1..] == rest;
    assert NextByte(tail) == Mark(0xD0 + num, rest);
  }

  lemma {:induction false} BitsBefore(a: seq<Bit>, b: seq<Bit>, all: seq<Bit>)
    requires a + b <= all
    ensures a <= all && all[|a|..] == b + all[|a + b|..]
  {
  }

  /** Main result for sequential coding: from the bytes of a scan, with whatever marker follows
      it, decoding into zeroed blocks gives every block back, and leaves only padding. */
  lemma {:induction false} ScanTaken(x: Tables, bits: seq<Bit>, pred: seq<int>, evs: seq<Event<seq<Unit>>>, tail: seq<Byte>)
    returns (rest: seq<Bit>)
    requires McusOk(x, |pred|, evs) && Codable(x, pred, evs) && Data(tail) == []
    ensures SlotEventsOk(x, |pred|, BlankEvents(evs)) && |rest| <= 7
    ensures var s := Open(ScanBytes(x, bits, pred, evs) + tail);
      && bits <= s.bits
      && DecodeScan(x, s.(bits := s.bits[|bits|..]), pred, BlankEvents(evs))
         == Decoded(ScanSources(evs), Stream(rest, Marker(tail), AfterMarker(tail)))
    decreases |evs|
  {
    BlankEventsOk(x, |pred|, evs);
    hide TablesOk, Readable, McuTokens, McuInRange, AllWritable, AllBits, DecodeMcu, SlotsOk, McuOk, Open, Finished, Data, Marker, AfterMarker, PredAfter, NoPred;
    if evs == [] {
      FinishedData(bits, tail);
      rest := W.Padding(|bits|);
      assert (bits + rest)[|bits|..] == rest;
    } else {
      assert EventOk(x, |pred|, evs[0]);
      assert BlankEvents(evs)[1..] == BlankEvents(evs[1..]);
      if evs[0].Restart? {
        rest := RestartTaken(x, bits, pred, evs, tail);
      } else {
        rest := ItemTaken(x, bits, pred, evs, tail);
      }
    }
  }

  lemma {:induction false} RestartTaken(x: Tables, bits: seq<Bit>, pred: seq<int>, evs: seq<Event<seq<Unit>>>, tail: seq<Byte>)
    returns (rest: seq<Bit>)
    requires McusOk(x, |pred|, evs) && Codable(x, pred, evs) && Data(tail) == [] && evs != [] && evs[0].Restart?
    ensures SlotEventsOk(x, |pred|, BlankEvents(evs)) && |rest| <= 7
    ensures var s := Open(ScanBytes(x, bits, pred, evs) + tail);
      && bits <= s.bits
      && DecodeScan(x, s.(bits := s.bits[|bits|..]), pred, BlankEvents(evs))
         == Decoded(ScanSources(evs), Stream(rest, Marker(tail), AfterMarker(tail)))
    decreases |evs|, 0
  {
    BlankEventsOk(x, |pred|, evs);
    assert EventOk(x, |pred|, evs[0]);
    hide TablesOk, Readable, McuTokens, McuInRange, AllWritable, AllBits, DecodeMcu, SlotsOk, McuOk, Open, Finished, Data, Marker, AfterMarker, PredAfter, NoPred, RstMarker, W.Padding;
    assert BlankEvents(evs)[1..] == BlankEvents(evs[1..]);
    var num, later := evs[0].num, ScanBytes(x, [], NoPred(|pred|), evs[1..]);
    rest := ScanTaken(x, [], NoPred(|pred|), evs[1..], tail);
    MarkerTail(num, later + tail);
    FinishedData(bits, RstMarker(num) + (later + tail));
    Joined(Finished(bits), RstMarker(num), later, tail);
    var s := Open(later + tail);
    assert s.bits[0..] == s.bits;
    assert [] + ScanSources(evs[1..]) == ScanSources(evs[1..]);
    NothingBefore(bits, W.Padding(|bits|));
  }

  lemma {:induction false} Joined(a: seq<Byte>, b: seq<Byte>, c: seq<Byte>, d: seq<Byte>)
    ensures (a + (b + c)) + d == a + (b + (c + d))
  {
  }

  lemma {:induction false} NothingBefore(bits: seq<Bit>, pad: seq<Bit>)
    ensures bits <= bits + pad && (bits + pad)[|bits|..] == pad
  {
  }

  lemma {:induction false} ItemTaken(x: Tables, bits: seq<Bit>, pred: seq<int>, evs: seq<Event<seq<Unit>>>, tail: seq<Byte>)
    returns (rest: seq<Bit>)
    requires McusOk(x, |pred|, evs) && Codable(x, pred, evs) && Data(tail) == [] && evs != [] && evs[0].Item?
    ensures SlotEventsOk(x, |pred|, BlankEvents(evs)) && |rest| <= 7
    ensures var s := Open(ScanBytes(x, bits, pred, evs) + tail);
      && bits <= s.bits
      && DecodeScan(x, s.(bits := s.bits[|bits|..]), pred, BlankEvents(evs))
         == Decoded(ScanSources(evs), Stream(rest, Marker(tail), AfterMarker(tail)))
    decreases |evs|, 0
  {
    BlankEventsOk(x, |pred|, evs);
    assert EventOk(x, |pred|, evs[0]);
    hide TablesOk, Readable, McuTokens, McuInRange, AllWritable, AllBits, DecodeMcu, SlotsOk, McuOk, Open, Finished, Data, Marker, AfterMarker, PredAfter, NoPred;
    assert BlankEvents(evs)[1..] == BlankEvents(evs[1..]);
    var mcu := evs[0].x;
    var mb := AllBits(x, McuTokens(x, pred, mcu));
    rest := ScanTaken(x, bits + mb, PredAfter(x, pred, mcu), evs[1..], tail);
    var s := Open(ScanBytes(x, bits, pred, evs) + tail);
    BitsBefore(bits, mb, s.bits);
    McuTaken(x, pred, mcu, s.bits[|bits + mb|..]);
  }

  // ----- no marker but the restart markers -----

  lemma {:induction false} OnlyRestarts(x: Tables, bits: seq<Bit>, pred: seq<int>, evs: seq<Event<seq<Unit>>>, i: nat)
    requires McusOk(x, |pred|, evs) && i < |ScanBytes(x, bits, pred, evs)| && ScanBytes(x, bits, pred, evs)[i] == 0xFF
    ensures i + 1 < |ScanBytes(x, bits, pred, evs)|
    ensures var b := ScanBytes(x, bits, pred, evs)[i + 1]; b == 0 || 0xD0 <= b <= 0xD7
    decreases |evs|
  {
    hide TablesOk, Readable, McuTokens, AllBits, McuOk, PredAfter, NoPred, Stuff, Pack;
    var y := Pack(bits + W.Padding(|bits|));
    if evs == [] {
      NoMarkerInside(y, i);
    } else {
      assert EventOk(x, |pred|, evs[0]);
      if evs[0].Item? {
        var mcu := evs[0].x;
        OnlyRestarts(x, bits + AllBits(x, McuTokens(x, pred, mcu)), PredAfter(x, pred, mcu), evs[1..], i);
      } else {
        var n := |Stuff(y)|;
        if i < n {
          NoMarkerInside(y, i);
        } else if i >= n + 2 {
          OnlyRestarts(x, [], NoPred(|pred|), evs[1..], i - n - 2);
        }
      }
    }
  }

  // ----- MCU by MCU -----

  ghost predicate AllMcusOk(x: Tables, comps: nat, mcus: seq<seq<Unit>>) {
    TablesOk(x) && forall i :: 0 <= i < |mcus| ==> McuOk(x, comps, mcus[i])
  }

  lemma {:induction false} RestartsOk(x: Tables, comps: nat, mcus: seq<seq<Unit>>, interval: nat, togo: nat, num: nat)
    requires AllMcusOk(x, comps, mcus) && num < 8
    ensures McusOk(x, comps, WithRestarts(mcus, interval, togo, num))
  {
    hide TablesOk, McuOk, EventsFit;
    RestartsFit(x, comps, mcus, interval, togo, num);
  }

  lemma {:induction false} RestartsFit(x: Tables, comps: nat, mcus: seq<seq<Unit>>, interval: nat, togo: nat, num: nat)
    requires (forall i :: 0 <= i < |mcus| ==> McuOk(x, comps, mcus[i])) && num < 8
    ensures EventsFit(x, comps, WithRestarts(mcus, interval, togo, num))
    decreases |mcus|, togo == 0
  {
    hide McuOk;
    if mcus != [] {
      if interval > 0 && togo == 0 {
        RestartsFit(x, comps, mcus, interval, interval, (num + 1) % 8);
      } else {
        RestartsFit(x, comps, mcus[1..], interval, if interval > 0 then togo - 1 else togo, num);
      }
    }
  }

  lemma {:induction false} ItemAhead(x: Tables, bits: seq<Bit>, pred: seq<int>, mcu: seq<Unit>, evs1: seq<Event<seq<Unit>>>)
    requires McusOk(x, |pred|, [Item(mcu)] + evs1) && McuOk(x, |pred|, mcu) && McusOk(x, |pred|, evs1)
    ensures ScanBytes(x, bits, pred, [Item(mcu)] + evs1)
         == ScanBytes(x, bits + AllBits(x, McuTokens(x, pred, mcu)), PredAfter(x, pred, mcu), evs1)
    ensures Codable(x, pred, [Item(mcu)] + evs1) <==>
      McuInRange(x, pred, mcu) && AllWritable(x, McuTokens(x, pred, mcu)) && Codable(x, PredAfter(x, pred, mcu), evs1)
  {
    hide TablesOk, McuOk, McuTokens, AllBits, AllWritable, McuInRange, PredAfter, NoPred, Finished, RstMarker;
    assert ([Item(mcu)] + evs1)[1..] == evs1;
  }

  lemma {:induction false} RestartAhead(x: Tables, base: seq<Byte>, bits: seq<Bit>, pred: seq<int>, num: nat, evs1: seq<Event<seq<Unit>>>)
    requires num < 8 && McusOk(x, |pred|, [Restart(num)] + evs1) && McusOk(x, |pred|, evs1)
    ensures base + ScanBytes(x, bits, pred, [Restart(num)] + evs1)
         == (base + (Finished(bits) + RstMarker(num))) + ScanBytes(x, [], NoPred(|pred|), evs1)
    ensures Codable(x, pred, [Restart(num)] + evs1) <==> Codable(x, NoPred(|pred|), evs1)
  {
    hide TablesOk, McuOk, NoPred, Finished, RstMarker;
    var evs: seq<Event<seq<Unit>>> := [Restart(num)] + evs1;
    assert evs[1..] == evs1;
    var later := ScanBytes(x, [], NoPred(|pred|), evs1);
    assert base + (Finished(bits) + (RstMarker(num) + later)) == (base + (Finished(bits) + RstMarker(num))) + later;
  }

  lemma {:induction false} RestartsUnfold<T>(items: seq<T>, interval: nat, togo: nat, num: nat)
    requires items != []
    ensures var due, num1 := interval > 0 && togo == 0, if interval > 0 && togo == 0 then (num + 1) % 8 else num;
      var item := [Item(items[0])] + WithRestarts(items[1..], interval, TogoAfter(interval, togo), num1);
      WithRestarts(items, interval, togo, num) == if due then [Restart(num)] + item else item
  {
  }

  /** One MCU in the bytes of a scan. */
  lemma {:induction false} McuAhead(x: Tables, base: seq<Byte>, bits: seq<Bit>, pred: seq<int>, mcus: seq<seq<Unit>>, interval: nat, togo: nat, num: nat)
    requires AllMcusOk(x, |pred|, mcus) && num < 8 && mcus != [] && McuOk(x, |pred|, mcus[0])
    requires McusOk(x, |pred|, WithRestarts(mcus, interval, togo, num))
    ensures var due := interval > 0 && togo == 0;
      var pred0, num1 := if due then NoPred(|pred|) else pred, if due then (num + 1) % 8 else num;
      var evs1 := WithRestarts(mcus[1..], interval, TogoAfter(interval, togo), num1);
      var bits1 := (if due then [] else bits) + AllBits(x, McuTokens(x, pred0, mcus[0]));
      && McusOk(x, |pred|, evs1)
      && base + ScanBytes(x, bits, pred, WithRestarts(mcus, interval, togo, num))
         == (if due then base + (Finished(bits) + RstMarker(num)) else base) + ScanBytes(x, bits1, PredAfter(x, pred0, mcus[0]), evs1)
      && (Codable(x, pred, WithRestarts(mcus, interval, togo, num)) <==>
          McuInRange(x, pred0, mcus[0]) && AllWritable(x, McuTokens(x, pred0, mcus[0])) && Codable(x, PredAfter(x, pred0, mcus[0]), evs1))
  {
    hide TablesOk, McuOk, McuTokens, AllBits, AllWritable, McuInRange, PredAfter, NoPred, Finished, RstMarker, ScanBytes, Codable, WithRestarts, McusOk;
    var due := interval > 0 && togo == 0;
    var num1 := if due then (num + 1) % 8 else num;
    var evs1 := WithRestarts(mcus[1..], interval, TogoAfter(interval, togo), num1);
    RestartsUnfold(mcus, interval, togo, num);
    RestartsOk(x, |pred|, mcus[1..], interval, TogoAfter(interval, togo), num1);
    FrontOk(x, |pred|, mcus[0], evs1);
    ItemAhead(x, if due then [] else bits, if due then NoPred(|pred|) else pred, mcus[0], evs1);
    if due {
      RestartAhead(x, base, bits, pred, num, [Item(mcus[0])] + evs1);
    }
  }

  lemma {:induction false} FrontOk(x: Tables, comps: nat, mcu: seq<Unit>, evs1: seq<Event<seq<Unit>>>)
    requires McuOk(x, comps, mcu) && McusOk(x, comps, evs1)
    ensures McusOk(x, comps, [Item(mcu)] + evs1)
  {
    hide TablesOk, McuOk;
  }

  lemma {:induction false} NothingAhead(x: Tables, bits: seq<Bit>, pred: seq<int>, interval: nat, togo: nat, num: nat)
    requires TablesOk(x)
    ensures McusOk(x, |pred|, WithRestarts([], interval, togo, num))
    ensures ScanBytes(x, bits, pred, WithRestarts([], interval, togo, num)) == Finished(bits)
    ensures Codable(x, pred, WithRestarts([], interval, togo, num))
  {
    hide TablesOk, Finished;
  }

  /** The bytes of a scan of given MCUs and restart interval. */
  ghost function PassBytes(x: Tables, comps: nat, mcus: seq<seq<Unit>>, interval: nat): seq<Byte>
    requires AllMcusOk(x, comps, mcus)
  {
    RestartsOk(x, comps, mcus, interval, interval, 0);
    ScanBytes(x, [], NoPred(comps), WithRestarts(mcus, interval, interval, 0))
  }

  ghost predicate PassCodable(x: Tables, comps: nat, mcus: seq<seq<Unit>>, interval: nat)
    requires AllMcusOk(x, comps, mcus)
  {
    RestartsOk(x, comps, mcus, interval, interval, 0);
    Codable(x, NoPred(comps), WithRestarts(mcus, interval, interval, 0))
  }
}
