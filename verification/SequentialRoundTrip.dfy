// Whole runs of the sequential decoder: an MCU whose input arrives in pieces, a scan read from
// complete input, and encoder and decoder run back to back over the bytes between them.
module SequentialRoundTrip {
  import opened BitStrings
  import opened BitPacking
  import opened Coefficients
  import opened Tokens
  import opened HuffmanCodes
  import opened HuffmanDecoding
  import opened DerivedTables
  import opened SequentialScan
  import opened SequentialStream
  import opened SequentialDecoder
  import E = SequentialEncoder
  import R = BitReader

  // ----- arrival of input -----

  lemma {:induction false} BitsPrefix(a: seq<Byte>, b: seq<Byte>)
    requires a <= b
    ensures ToBits(a) <= ToBits(b)
  {
    ToBitsConcat(a, b[|a|..]);
    assert b == a + b[|a|..];
  }

  /** More input only adds bits to those that are coming. */
  lemma {:induction false} ComingGrows(gb: nat, n: nat, input: seq<Byte>, more: seq<Byte>) returns (w: seq<Bit>)
    requires Marker(input) == 0
    ensures R.Coming(gb, n, 0, input + more) == R.Coming(gb, n, 0, input) + w
  {
    hide Data, Marker, ToBits, R.Held;
    DataMore(input, more);
    BitsPrefix(Data(input), Data(input + more));
    var x, y := ToBits(Data(input)), ToBits(Data(input + more));
    w := y[|x|..];
    assert R.Held(gb, n) + y == (R.Held(gb, n) + x) + w;
  }

  lemma {:induction false} RetryMore(x: Tables, a: seq<Bit>, w: seq<Bit>, pred: seq<int>, slots: seq<Slot>, now: seq<Slot>)
    requires Readable(x) && SlotsOk(x, |pred|, slots) && Retryable(x, a, pred, slots, now)
    ensures Retryable(x, a + w, pred, slots, now)
    ensures DecodeMcu(x, a + w, pred, now) == DecodeMcu(x, a + w, pred, slots)
  {
    hide Readable, DecodeMcu, SlotsOk;
    forall more: seq<Bit> ensures DecodeMcu(x, (a + w) + more, pred, now) == DecodeMcu(x, (a + w) + more, pred, slots) {
      assert (a + w) + more == a + (w + more);
    }
  }

  lemma {:induction false} RetryTwice(x: Tables, a: seq<Bit>, pred: seq<int>, slots: seq<Slot>, mid: seq<Slot>, now: seq<Slot>)
    requires Readable(x) && SlotsOk(x, |pred|, slots) && Retryable(x, a, pred, slots, mid)
    requires SlotsOk(x, |pred|, mid) && Retryable(x, a, pred, mid, now)
    ensures Retryable(x, a, pred, slots, now)
  {
    hide Readable, DecodeMcu, SlotsOk;
    forall more: seq<Bit> ensures DecodeMcu(x, a + more, pred, now) == DecodeMcu(x, a + more, pred, slots) {
      assert DecodeMcu(x, a + more, pred, mid) == DecodeMcu(x, a + more, pred, slots);
    }
  }

  lemma {:induction false} RetryNow(x: Tables, a: seq<Bit>, pred: seq<int>, slots: seq<Slot>)
    requires Readable(x) && SlotsOk(x, |pred|, slots)
    ensures Retryable(x, a, pred, slots, slots)
  {
    hide Readable, DecodeMcu, SlotsOk;
  }

  /** The rest of a segment, of which n bits are in the buffer and no marker has been read. */
  ghost function Whole(gb: nat, n: nat, input: seq<Byte>): Stream {
    Stream(R.Coming(gb, n, 0, input), Marker(input), AfterMarker(input))
  }

  /** Decode an MCU with what has arrived; whenever the call suspends, wait for the next
      arrival and call again.  However the input is cut up, the blocks, the predictions and
      the rest of the stream, its ending marker and what follows included, are those of one call
      on all of it.  It stays suspended only when every arrival has been used, no marker has come
      and the MCU either is incomplete or has fewer than 25 bits after it; zero bits are invented only when one call on all of the input is short of bits. */
  method DecodeArriving(d: Decoder, refs: seq<Ref>, order: seq<nat>, arrivals: seq<seq<Byte>>)
    returns (verdict: Verdict, used: nat)
    requires d.Valid() && !d.insufficientData && d.unreadMarker == 0 && RefsFit(d.tables, d.comps, refs, order) && Apart(refs)
    requires SlotsOk(d.tables, d.comps, SlotsOf(refs, order))
    modifies d, set i | 0 <= i < |refs| :: refs[i].block
    ensures used <= |arrivals| && verdict != Resync && d.Valid()
    ensures verdict == Done && !d.insufficientData ==>
      var s := Whole(old(d.getBuffer), old(d.bitsLeft), old(d.input) + Flat(arrivals[..used]));
      && DecodeMcu(d.tables, s.bits, old(d.lastDcVal), old(SlotsOf(refs, order))) == McuDone(d.StreamNow().bits, d.lastDcVal, Blocks(refs, order))
      && d.StreamNow() == s.(bits := d.StreamNow().bits)
    ensures d.insufficientData ==>
      var s := Whole(old(d.getBuffer), old(d.bitsLeft), old(d.input) + Flat(arrivals[..used]));
      verdict == Done && DecodeMcu(d.tables, s.bits, old(d.lastDcVal), old(SlotsOf(refs, order))).McuShort?
    ensures verdict == Suspended ==>
      && used == |arrivals| && Marker(old(d.input) + Flat(arrivals)) == 0
      && d.getBuffer == old(d.getBuffer) && d.bitsLeft == old(d.bitsLeft) && d.lastDcVal == old(d.lastDcVal)
      && d.input == old(d.input) + Flat(arrivals)
      && FewLeft(d.tables, Whole(d.getBuffer, d.bitsLeft, d.input).bits, d.lastDcVal, old(SlotsOf(refs, order)))
  {
    hide Readable, DerivedFor, Retryable, FewLeft, DecodeMcu, View, IsZigzag, SlotsOf, SlotsOk, Blocks, R.Coming, Marker, AfterMarker;
    ghost var x, slots, pred, gb, n, inp := d.tables, SlotsOf(refs, order), d.lastDcVal, d.getBuffer, d.bitsLeft, d.input;
    used := 0;
    RetryNow(x, d.StreamNow().bits, pred, slots);
    assert inp + Flat(arrivals[..0]) == inp;
    while true
      invariant d.Valid() && !d.insufficientData && d.unreadMarker == 0 && used <= |arrivals|
      invariant d.getBuffer == gb && d.bitsLeft == n && d.lastDcVal == pred
      invariant d.input == inp + Flat(arrivals[..used])
      invariant SlotsOk(x, |pred|, SlotsOf(refs, order))
      invariant Retryable(x, d.StreamNow().bits, pred, slots, SlotsOf(refs, order))
      decreases |arrivals| - used
    {
      ghost var a, mid := d.StreamNow().bits, SlotsOf(refs, order);
      RetryIs(x, a, pred, slots, mid);
      verdict := d.DecodeBlocks(refs, order);
      if verdict == Suspended {
        FewSame(x, a, pred, slots, mid);
      }
      if verdict == Done || used == |arrivals| {
        assert arrivals[..|arrivals|] == arrivals;
        return;
      }
      RetryTwice(x, a, pred, slots, mid, SlotsOf(refs, order));
      RetryFits(x, a, pred, slots, SlotsOf(refs, order));
      ghost var w := ComingGrows(gb, n, d.input, arrivals[used]);
      RetryMore(x, a, w, pred, slots, SlotsOf(refs, order));
      d.input := d.input + arrivals[used];
      FlatMore(inp, arrivals, used);
      used := used + 1;
    }
  }

  lemma {:induction false} RetryIs(x: Tables, a: seq<Bit>, pred: seq<int>, slots: seq<Slot>, now: seq<Slot>)
    requires Readable(x) && SlotsOk(x, |pred|, slots) && Retryable(x, a, pred, slots, now)
    ensures SlotsOk(x, |pred|, now) && DecodeMcu(x, a, pred, now) == DecodeMcu(x, a, pred, slots)
  {
    hide Readable, DecodeMcu, SlotsOk;
    assert a + [] == a;
  }

  lemma {:induction false} FewSame(x: Tables, a: seq<Bit>, pred: seq<int>, slots: seq<Slot>, now: seq<Slot>)
    requires Readable(x) && SlotsOk(x, |pred|, slots) && SlotsOk(x, |pred|, now) && FewLeft(x, a, pred, now)
    requires DecodeMcu(x, a, pred, now) == DecodeMcu(x, a, pred, slots)
    ensures FewLeft(x, a, pred, slots)
  {
    hide Readable, DecodeMcu, SlotsOk;
  }

  lemma {:induction false} RetryFits(x: Tables, a: seq<Bit>, pred: seq<int>, slots: seq<Slot>, now: seq<Slot>)
    requires Readable(x) && SlotsOk(x, |pred|, slots) && Retryable(x, a, pred, slots, now)
    ensures SlotsOk(x, |pred|, now)
  {
    hide Readable, DecodeMcu, SlotsOk;
  }

  lemma {:induction false} FlatSnoc(xs: seq<seq<Byte>>, y: seq<Byte>)
    ensures Flat(xs + [y]) == Flat(xs) + y
    decreases |xs|
  {
    if xs == [] {
      assert [y][1..] == [];
    } else {
      assert (xs + [y])[1..] == xs[1..] + [y];
      FlatSnoc(xs[1..], y);
    }
  }

  lemma {:induction false} FlatMore(inp: seq<Byte>, arrivals: seq<seq<Byte>>, used: nat)
    requires used < |arrivals|
    ensures (inp + Flat(arrivals[..used])) + arrivals[used] == inp + Flat(arrivals[..used + 1])
  {
    assert arrivals[..used + 1] == arrivals[..used] + [arrivals[used]];
    FlatSnoc(arrivals[..used], arrivals[used]);
  }

  // ----- a scan from complete input -----

  /** Without an ending marker in sight no restart can be passed. */
  lemma {:induction false} NoEnding(x: Tables, s: Stream, pred: seq<int>, evs: seq<Event<seq<Slot>>>)
    requires SlotEventsOk(x, |pred|, evs) && s.ending == 0
    ensures var o := DecodeScan(x, s, pred, evs); o.Decoded? ==> o.s.ending == 0
    decreases |evs|
  {
    hide Readable, DecodeMcu, SlotsOk, Open;
    if evs != [] && evs[0].Item? {
      match DecodeMcu(x, s.bits, pred, evs[0].x)
      case McuDone(rest, pred1, blocks) => NoEnding(x, s.(bits := rest), pred1, evs[1..]);
      case McuShort(_) =>
    }
  }

  ghost predicate AllSlotsOk(x: Tables, comps: nat, mcus: seq<seq<Slot>>) {
    Readable(x) && forall i :: 0 <= i < |mcus| ==> SlotsOk(x, comps, mcus[i])
  }

  lemma {:induction false} SlotRestartsOk(x: Tables, comps: nat, mcus: seq<seq<Slot>>, interval: nat, togo: nat, num: nat)
    requires AllSlotsOk(x, comps, mcus)
    ensures SlotEventsOk(x, comps, WithRestarts(mcus, interval, togo, num))
    decreases |mcus|, togo == 0
  {
    hide Readable, SlotsOk;
    if mcus != [] {
      if interval > 0 && togo == 0 {
        SlotRestartsOk(x, comps, mcus, interval, interval, (num + 1) % 8);
      } else {
        SlotRestartsOk(x, comps, mcus[1..], interval, if interval > 0 then togo - 1 else togo, num);
      }
    }
  }

  function Prepend(done: seq<seq<seq<int>>>, o: ScanOut): ScanOut {
    if o.Decoded? then Decoded(done + o.mcus, o.s) else Failed
  }

  lemma {:induction false} PrependMore(done: seq<seq<seq<int>>>, m: seq<seq<int>>, o: ScanOut)
    ensures Prepend(done, Cons(m, o)) == Prepend(done + [m], o)
  {
    if o.Decoded? {
      Assoc3(done, [m], o.mcus);
    }
  }

  lemma {:induction false} PrependNone(o: ScanOut)
    ensures Prepend([], o) == o
  {
    if o.Decoded? {
      assert [] + o.mcus == o.mcus;
    }
  }

  /** One MCU in the decoding of a scan. */
  lemma {:induction false} ScanAhead(x: Tables, s: Stream, pred: seq<int>, mcus: seq<seq<Slot>>, interval: nat, togo: nat, num: nat)
    requires AllSlotsOk(x, |pred|, mcus) && mcus != [] && SlotsOk(x, |pred|, mcus[0])
    requires SlotEventsOk(x, |pred|, WithRestarts(mcus, interval, togo, num))
    ensures var due := interval > 0 && togo == 0;
      var pred0, num1 := if due then NoPred(|pred|) else pred, if due then (num + 1) % 8 else num;
      var evs1 := WithRestarts(mcus[1..], interval, TogoAfter(interval, togo), num1);
      var s0 := if due then Open(s.after) else s;
      && SlotEventsOk(x, |pred|, evs1)
      && DecodeScan(x, s, pred, WithRestarts(mcus, interval, togo, num))
         == if due && s.ending != 0xD0 + num then Failed
            else match DecodeMcu(x, s0.bits, pred0, mcus[0])
              case McuDone(rest, pred1, blocks) => Cons(blocks, DecodeScan(x, s0.(bits := rest), pred1, evs1))
              case McuShort(_) => Failed
  {
    hide Readable, DecodeMcu, SlotsOk, Open, NoPred, WithRestarts;
    var due := interval > 0 && togo == 0;
    var num1 := if due then (num + 1) % 8 else num;
    var evs1 := WithRestarts(mcus[1..], interval, TogoAfter(interval, togo), num1);
    RestartsUnfold(mcus, interval, togo, num);
    SlotRestartsOk(x, |pred|, mcus[1..], interval, TogoAfter(interval, togo), num1);
    var item := [Item(mcus[0])] + evs1;
    assert item[1..] == evs1;
    assert SlotEventsOk(x, |pred|, item);
    if due {
      assert ([Restart(num)] + item)[1..] == item;
    }
  }

  ghost function BlockSet(refs: seq<Ref>): set<array<int>> {
    set i | 0 <= i < |refs| :: refs[i].block
  }

  /** No block belongs to two places of the scan. */
  ghost predicate AllApart(mcus: seq<seq<Ref>>) {
    && (forall i :: 0 <= i < |mcus| ==> Apart(mcus[i]))
    && (forall i, j :: 0 <= i < j < |mcus| ==> BlockSet(mcus[i]) !! BlockSet(mcus[j]))
  }

  ghost function AllSlots(mcus: seq<seq<Ref>>, order: seq<nat>): (ss: seq<seq<Slot>>)
    requires E.AllFit(mcus, order)
    reads set i, j | 0 <= i < |mcus| && 0 <= j < |mcus[i]| :: mcus[i][j].block
    ensures |ss| == |mcus| && forall i :: 0 <= i < |ss| ==> ss[i] == SlotsOf(mcus[i], order)
  {
    if mcus == [] then [] else [SlotsOf(mcus[0], order)] + AllSlots(mcus[1..], order)
  }

  ghost function AllBlocks(mcus: seq<seq<Ref>>, order: seq<nat>): (bs: seq<seq<seq<int>>>)
    requires E.AllFit(mcus, order)
    reads set i, j | 0 <= i < |mcus| && 0 <= j < |mcus[i]| :: mcus[i][j].block
    ensures |bs| == |mcus| && forall i :: 0 <= i < |bs| ==> bs[i] == Blocks(mcus[i], order)
  {
    if mcus == [] then [] else [Blocks(mcus[0], order)] + AllBlocks(mcus[1..], order)
  }

  lemma {:induction false} AllSlotsFit(x: Tables, comps: nat, mcus: seq<seq<Ref>>, order: seq<nat>)
    requires Readable(x) && E.AllFit(mcus, order) && forall i :: 0 <= i < |mcus| ==> RefsFit(x, comps, mcus[i], order)
    ensures AllSlotsOk(x, comps, AllSlots(mcus, order))
  {
    hide Readable, View, IsZigzag;
    forall i | 0 <= i < |mcus| ensures SlotsOk(x, comps, AllSlots(mcus, order)[i]) {
      SlotsFit(x, comps, mcus[i], order);
      hide SlotsOk;
    }
  }

  /** What decoding the rest of a scan will give. */
  ghost function Ahead(d: Decoder, slots: seq<seq<Slot>>): ScanOut
    reads d
    requires AllSlotsOk(d.tables, |d.lastDcVal|, slots)
  {
    SlotRestartsOk(d.tables, |d.lastDcVal|, slots, d.restartInterval, d.restartsToGo, d.nextRestartNum);
    DecodeScan(d.tables, d.StreamNow(), d.lastDcVal, WithRestarts(slots, d.restartInterval, d.restartsToGo, d.nextRestartNum))
  }

  /** The scan succeeds, and a marker ends it. */
  ghost predicate Succeeds(o: ScanOut) {
    o.Decoded? && o.s.ending != 0
  }

  /** The next MCU of a scan that succeeds is decoded without suspension or missing bits. */
  method ReadNextMcu(d: Decoder, refs: seq<Ref>, order: seq<nat>, ghost slots: seq<seq<Slot>>, ghost done: seq<seq<seq<int>>>)
    requires d.Valid() && !d.insufficientData && RefsFit(d.tables, d.comps, refs, order) && Apart(refs)
    requires AllSlotsOk(d.tables, d.comps, slots) && slots != [] && slots[0] == SlotsOf(refs, order)
    requires Succeeds(Prepend(done, Ahead(d, slots)))
    modifies d, set i | 0 <= i < |refs| :: refs[i].block
    ensures d.Valid() && !d.insufficientData && AllSlotsOk(d.tables, d.comps, slots[1..])
    ensures Prepend(done + [Blocks(refs, order)], Ahead(d, slots[1..])) == old(Prepend(done, Ahead(d, slots)))
  {
    hide Readable, DerivedFor, Retryable, FewLeft, DecodeMcu, View, IsZigzag, SlotsOf, SlotsOk, Blocks, R.Coming, Open, NoPred, WithRestarts, DecodeScan;
    ghost var x, due, s, pred := d.tables, d.Due(), d.Segment(), if d.Due() then NoPred(d.comps) else d.lastDcVal;
    assert SlotsOk(x, d.comps, slots[0]);
    SlotRestartsOk(x, d.comps, slots, d.restartInterval, d.restartsToGo, d.nextRestartNum);
    ScanAhead(x, d.StreamNow(), d.lastDcVal, slots, d.restartInterval, d.restartsToGo, d.nextRestartNum);
    ghost var num1 := if due then (d.nextRestartNum + 1) % 8 else d.nextRestartNum;
    ghost var evs1 := WithRestarts(slots[1..], d.restartInterval, TogoAfter(d.restartInterval, d.restartsToGo), num1);
    assert s == if due then Open(d.StreamNow().after) else d.StreamNow();
    if s.ending == 0 {
      NeverEnds(x, s, pred, slots[0], evs1);
    }
    var verdict := d.DecodeNext(refs, order);
    PrependMore(done, Blocks(refs, order), Ahead(d, slots[1..]));
  }

  lemma {:induction false} NeverEnds(x: Tables, s: Stream, pred: seq<int>, mcu: seq<Slot>, evs1: seq<Event<seq<Slot>>>)
    requires SlotEventsOk(x, |pred|, evs1) && SlotsOk(x, |pred|, mcu) && s.ending == 0
    ensures var o := DecodeMcu(x, s.bits, pred, mcu);
      o.McuDone? ==> !Succeeds(Cons(o.blocks, DecodeScan(x, s.(bits := o.rest), o.pred, evs1)))
  {
    hide Readable, SlotsOk, DecodeScan;
    var o := DecodeMcu(x, s.bits, pred, mcu);
    hide DecodeMcu;
    if o.McuDone? {
      NoEnding(x, s.(bits := o.rest), o.pred, evs1);
    }
  }

  lemma {:induction false} InOther(mcus: seq<seq<Ref>>, i: nat, j: nat)
    requires AllApart(mcus) && i < |mcus| && j < |mcus| && i != j
    ensures forall k :: 0 <= k < |mcus[j]| ==> mcus[j][k].block !in BlockSet(mcus[i])
  {
    forall k | 0 <= k < |mcus[j]| ensures mcus[j][k].block !in BlockSet(mcus[i]) {
      assert mcus[j][k].block in BlockSet(mcus[j]);
    }
  }

  /** ReadNextMcu on the i-th MCU of a scan: the blocks of all others stay as they are. */
  method ReadMcuOf(d: Decoder, mcus: seq<seq<Ref>>, i: nat, order: seq<nat>, ghost slots: seq<seq<Slot>>, ghost done: seq<seq<seq<int>>>)
    requires d.Valid() && !d.insufficientData && AllApart(mcus) && E.AllFit(mcus, order) && i < |mcus|
    requires RefsFit(d.tables, d.comps, mcus[i], order)
    requires AllSlotsOk(d.tables, d.comps, slots) && slots != [] && slots[0] == SlotsOf(mcus[i], order)
    requires Succeeds(Prepend(done, Ahead(d, slots)))
    modifies d, BlockSet(mcus[i])
    ensures d.Valid() && !d.insufficientData && AllSlotsOk(d.tables, d.comps, slots[1..])
    ensures Prepend(done + [Blocks(mcus[i], order)], Ahead(d, slots[1..])) == old(Prepend(done, Ahead(d, slots)))
    ensures forall j :: 0 <= j < |mcus| && j != i ==> SlotsOf(mcus[j], order) == old(SlotsOf(mcus[j], order))
  {
    hide Readable, DerivedFor, View, IsZigzag, SlotsOf, Blocks, R.Coming, Ahead, Prepend, RefsFit, Fits, SlotsOk, AllSlotsOk, Decoder.Valid;
    assert Apart(mcus[i]);
    ReadNextMcu(d, mcus[i], order, slots, done);
    forall j: nat | j < |mcus| && j != i ensures SlotsOf(mcus[j], order) == old(SlotsOf(mcus[j], order)) {
      InOther(mcus, i, j);
    }
  }

  ghost function AllBlockSet(mcus: seq<seq<Ref>>): set<array<int>> {
    set i, j | 0 <= i < |mcus| && 0 <= j < |mcus[i]| :: mcus[i][j].block
  }

  lemma {:induction false} InAll(mcus: seq<seq<Ref>>, i: nat)
    requires i < |mcus|
    ensures BlockSet(mcus[i]) <= AllBlockSet(mcus)
  {
  }

  /** A scan that can be decoded is decoded: from complete input no call suspends, no zero bit
      is invented, and every block receives its coefficients. */
  method ReadScan(d: Decoder, mcus: seq<seq<Ref>>, order: seq<nat>)
    requires d.Valid() && !d.insufficientData && AllApart(mcus) && E.AllFit(mcus, order)
    requires forall i :: 0 <= i < |mcus| ==> RefsFit(d.tables, d.comps, mcus[i], order)
    requires AllSlotsOk(d.tables, d.comps, AllSlots(mcus, order)) && Succeeds(Ahead(d, AllSlots(mcus, order)))
    modifies d, AllBlockSet(mcus)
    ensures d.Valid() && !d.insufficientData
    ensures old(Ahead(d, AllSlots(mcus, order))) == Decoded(AllBlocks(mcus, order), d.StreamNow())
  {
    hide Readable, DerivedFor, View, IsZigzag, SlotsOf, Values, R.Coming, Ahead, Prepend, AllSlots, AllBlocks, RefsFit, Fits, SlotsOk, AllApart;
    ghost var x, slots, whole := d.tables, AllSlots(mcus, order), Ahead(d, AllSlots(mcus, order));
    ghost var done: seq<seq<seq<int>>> := [];
    PrependNone(whole);
    assert slots[0..] == slots;
    var i := 0;
    while i < |mcus|
      invariant 0 <= i == |done| <= |mcus| && d.Valid() && !d.insufficientData
      invariant AllSlotsOk(x, d.comps, slots[i..])
      invariant forall j :: i <= j < |mcus| ==> SlotsOf(mcus[j], order) == slots[j]
      invariant forall j :: 0 <= j < i ==> Values(SlotsOf(mcus[j], order)) == done[j]
      invariant whole == Prepend(done, Ahead(d, slots[i..]))
    {
      assert slots[i..][0] == slots[i] && slots[i..][1..] == slots[i + 1..];
      assert RefsFit(x, d.comps, mcus[i], order) ;
      InAll(mcus, i);
      ReadMcuOf(d, mcus, i, order, slots[i..], done);
      done := done + [Values(SlotsOf(mcus[i], order))];
      i := i + 1;
    }
    assert slots[i..] == [];
    NothingLeft(d, done);
    assert AllBlocks(mcus, order) == done;
  }

  lemma {:induction false} NothingLeft(d: Decoder, done: seq<seq<seq<int>>>)
    requires AllSlotsOk(d.tables, |d.lastDcVal|, [])
    ensures Prepend(done, Ahead(d, [])) == Decoded(done, d.StreamNow())
  {
    hide Readable, R.Coming;
    assert done + [] == done;
  }

  // ----- there and back -----

  function AllBlanks(us: seq<seq<Unit>>): (ss: seq<seq<Slot>>)
    ensures |ss| == |us|
  {
    seq(|us|, i requires 0 <= i < |us| => Blanks(us[i]))
  }

  function AllSources(us: seq<seq<Unit>>): (zs: seq<seq<seq<int>>>)
    ensures |zs| == |us|
  {
    seq(|us|, i requires 0 <= i < |us| => Sources(us[i]))
  }

  lemma {:induction false} ItemSame(mcu: seq<Unit>, evs: seq<Event<seq<Unit>>>)
    ensures BlankEvents([Item(mcu)] + evs) == [Item(Blanks(mcu))] + BlankEvents(evs)
    ensures ScanSources([Item(mcu)] + evs) == [Sources(mcu)] + ScanSources(evs)
  {
    hide Blanks, Sources;
    assert ([Item(mcu)] + evs)[1..] == evs;
  }

  lemma {:induction false} RestartSame(num: nat, evs: seq<Event<seq<Unit>>>)
    ensures BlankEvents([Restart(num)] + evs) == [Restart(num)] + BlankEvents(evs)
    ensures ScanSources([Restart(num)] + evs) == ScanSources(evs)
  {
    var all: seq<Event<seq<Unit>>> := [Restart(num)] + evs;
    assert all[1..] == evs;
    assert [] + ScanSources(evs) == ScanSources(evs);
  }

  lemma {:induction false} FirstMcu(us: seq<seq<Unit>>)
    requires us != []
    ensures AllBlanks(us) == [Blanks(us[0])] + AllBlanks(us[1..]) && AllBlanks(us)[1..] == AllBlanks(us[1..])
    ensures AllSources(us) == [Sources(us[0])] + AllSources(us[1..])
  {
    hide Blanks, Sources;
  }

  lemma {:induction false} RestartsSame(us: seq<seq<Unit>>, interval: nat, togo: nat, num: nat)
    ensures BlankEvents(WithRestarts(us, interval, togo, num)) == WithRestarts(AllBlanks(us), interval, togo, num)
    ensures ScanSources(WithRestarts(us, interval, togo, num)) == AllSources(us)
    decreases |us|, togo == 0
  {
    if us != [] {
      FirstMcu(us);
      hide Blanks, Sources, AllBlanks, AllSources, BlankEvents, ScanSources;
      if interval > 0 && togo == 0 {
        RestartsSame(us, interval, interval, (num + 1) % 8);
        RestartSame(num, WithRestarts(us, interval, interval, (num + 1) % 8));
      } else {
        var togo1 := if interval > 0 then togo - 1 else togo;
        RestartsSame(us[1..], interval, togo1, num);
        ItemSame(us[0], WithRestarts(us[1..], interval, togo1, num));
      }
    }
  }

  /** ScanTaken for a scan of given MCUs, restart interval and end-of-image marker. */
  lemma {:induction false} PassTaken(x: Tables, comps: nat, us: seq<seq<Unit>>, interval: nat) returns (rest: seq<Bit>)
    requires AllMcusOk(x, comps, us) && PassCodable(x, comps, us, interval)
    ensures SlotEventsOk(x, comps, WithRestarts(AllBlanks(us), interval, interval, 0)) && |rest| <= 7
    ensures DecodeScan(x, Open(PassBytes(x, comps, us, interval) + [0xFF, 0xD9]), NoPred(comps), WithRestarts(AllBlanks(us), interval, interval, 0))
         == Decoded(AllSources(us), Stream(rest, 0xD9, []))
  {
    hide TablesOk, Readable, ScanBytes, DecodeScan, BlankEvents, ScanSources, AllBlanks, AllSources, WithRestarts, Open, Codable, McusOk, SlotsOk;
    EndOfImage();
    RestartsOk(x, comps, us, interval, interval, 0);
    rest := ScanTaken(x, [], NoPred(comps), WithRestarts(us, interval, interval, 0), [0xFF, 0xD9]);
    RestartsSame(us, interval, interval, 0);
    var s := Open(PassBytes(x, comps, us, interval) + [0xFF, 0xD9]);
    assert s.bits[0..] == s.bits;
  }

  lemma {:induction false} EndOfImage()
    ensures Data([0xFF, 0xD9]) == [] && Marker([0xFF, 0xD9]) == 0xD9 && AfterMarker([0xFF, 0xD9]) == []
  {
    var tail: seq<Byte> := [0xFF, 0xD9];
    var last: seq<Byte> := [0xD9];
    assert tail[1..] == last && last[1..] == [];
    assert SkipFF(last) == last;
    assert NextByte(tail) == Mark(0xD9, []);
  }

  /** The target blocks are zeroed and stand where the source blocks do. */
  ghost predicate Prepared(source: seq<seq<Ref>>, target: seq<seq<Ref>>, order: seq<nat>)
    requires E.AllFit(source, order) && E.AllFit(target, order)
    reads set i, j | 0 <= i < |source| && 0 <= j < |source[i]| :: source[i][j].block
    reads set i, j | 0 <= i < |target| && 0 <= j < |target[i]| :: target[i][j].block
  {
    AllSlots(target, order) == AllBlanks(E.ScanUnits(source, order))
  }

  /** The derived tables of the encoder and of the decoder, if all tables are legal. */
  method DeriveAll(dc: seq<HuffTbl>, ac: seq<HuffTbl>) returns (ok: bool, x: Tables, dcs: seq<DTbl>, acs: seq<DTbl>)
    requires (forall i :: 0 <= i < |dc| ==> Shape(dc[i])) && (forall i :: 0 <= i < |ac| ==> Shape(ac[i]))
    ensures ok <==> (forall i :: 0 <= i < |dc| ==> Legal(dc[i], true)) && (forall i :: 0 <= i < |ac| ==> Legal(ac[i], false))
    ensures ok ==> x.dc == dc && x.ac == ac && TablesOk(x) && DerivedFor(x, dcs, acs)
  {
    hide Shape, Legal, Encodes, DTblOk, SymbolsUpTo;
    var dcc, acc;
    x, acs := Tables([], [], [], []), [];
    ok, dcc, dcs := DeriveKind(dc, true);
    if !ok {
      return;
    }
    ok, acc, acs := DeriveKind(ac, false);
    x := Tables(dc, ac, dcc, acc);
  }

  ghost predicate DerivedBoth(t: HuffTbl, isDC: bool, c: CTbl, d: DTbl) {
    && TableOk(t, isDC, c) && d.pub == t && DTblOk(d)
    && (isDC ==> SymbolsUpTo(t, true, Total(t.bits)))
  }

  method DeriveKind(ts: seq<HuffTbl>, isDC: bool) returns (ok: bool, cs: seq<CTbl>, ds: seq<DTbl>)
    requires forall i :: 0 <= i < |ts| ==> Shape(ts[i])
    ensures ok <==> forall i :: 0 <= i < |ts| ==> Legal(ts[i], isDC)
    ensures ok ==> |cs| == |ds| == |ts| && forall i :: 0 <= i < |ts| ==> DerivedBoth(ts[i], isDC, cs[i], ds[i])
  {
    hide Encodes, DTblOk, SymbolsUpTo, Kraft, Total, Distinct;
    cs, ds := [], [];
    var i := 0;
    while i < |ts|
      invariant 0 <= i == |cs| == |ds| <= |ts|
      invariant forall j :: 0 <= j < i ==> Legal(ts[j], isDC)
      invariant forall j :: 0 <= j < i ==> DerivedBoth(ts[j], isDC, cs[j], ds[j])
    {
      var c, d;
      ok, c := MakeCDerived(ts[i], isDC);
      if !ok {
        return;
      }
      ok, d := MakeDDerived(ts[i], isDC);
      cs, ds := cs + [c], ds + [d];
      i := i + 1;
    }
    ok := true;
  }

  /** Decoding the bytes of a scan into zeroed blocks. */
  method DecodePass(ghost x: Tables, dcs: seq<DTbl>, acs: seq<DTbl>, comps: nat, interval: nat, ghost us: seq<seq<Unit>>,
                    bytes: seq<Byte>, target: seq<seq<Ref>>, order: seq<nat>)
    returns (ghost left: Stream)
    requires TablesOk(x) && DerivedFor(x, dcs, acs) && AllMcusOk(x, comps, us) && PassCodable(x, comps, us, interval)
    requires bytes == PassBytes(x, comps, us, interval) + [0xFF, 0xD9]
    requires E.AllFit(target, order) && AllApart(target) && AllSlots(target, order) == AllBlanks(us)
    requires forall i :: 0 <= i < |target| ==> RefsFit(x, comps, target[i], order)
    modifies AllBlockSet(target)
    ensures AllBlocks(target, order) == AllSources(us)
    ensures left.ending == 0xD9 && left.after == [] && |left.bits| <= 7
  {
    hide View, IsZigzag, TablesOk, DerivedFor, Readable, AllSlots, AllBlocks, AllMcusOk, PassBytes, PassCodable, R.Coming, Open,
      WithRestarts, DecodeScan, AllSources, AllBlanks, SlotsOk, Fits, NoPred, AllApart, AllBlockSet, E.AllFit, RefsFit;
    ghost var rest := PassTaken(x, comps, us, interval);
    var decoder := new Decoder(x, dcs, acs, comps, interval, bytes);
    AllSlotsFit(x, comps, target, order);
    ReadScan(decoder, target, order);
    left := decoder.StreamNow();
  }

  /** The bytes of a scan and the end-of-image marker. */
  method EncodePass(x: Tables, comps: nat, interval: nat, source: seq<seq<Ref>>, order: seq<nat>) returns (ok: bool, bytes: seq<Byte>)
    requires TablesOk(x) && IsZigzag(order) && E.AllFit(source, order)
    requires forall i :: 0 <= i < |source| ==> RefsFit(x, comps, source[i], order)
    ensures AllMcusOk(x, comps, E.ScanUnits(source, order))
    ensures ok <==> PassCodable(x, comps, E.ScanUnits(source, order), interval)
    ensures ok ==> bytes == PassBytes(x, comps, E.ScanUnits(source, order), interval) + [0xFF, 0xD9]
  {
    hide IsZigzag, TablesOk, E.ScanUnits, AllMcusOk, PassBytes, PassCodable, Fits, NoPred, E.AllFit, RefsFit;
    bytes := [];
    var encoder := new E.Encoder(x, comps, interval);
    ok := encoder.EncodeScan(source, order);
    if ok {
      bytes := encoder.writer.out + [0xFF, 0xD9];
    }
  }

  /** Main result for the running code: whatever tables, restart interval and blocks the
      encoder accepts, decoding its bytes restores every block exactly, without suspending and
      without inventing a bit, and stops at the end-of-image marker.  It succeeds exactly when
      all tables are legal and every MCU can be coded with them. */
  method EncodeThenDecode(dc: seq<HuffTbl>, ac: seq<HuffTbl>, comps: nat, interval: nat, source: seq<seq<Ref>>, target: seq<seq<Ref>>, order: seq<nat>)
    returns (ok: bool, bytes: seq<Byte>, ghost legal: bool, ghost x: Tables, ghost left: Stream)
    requires (forall i :: 0 <= i < |dc| ==> Shape(dc[i])) && (forall i :: 0 <= i < |ac| ==> Shape(ac[i])) && IsZigzag(order)
    requires forall i :: 0 <= i < |source| ==> RefsFit(Tables(dc, ac, [], []), comps, source[i], order)
    requires forall i :: 0 <= i < |target| ==> RefsFit(Tables(dc, ac, [], []), comps, target[i], order)
    requires E.AllFit(source, order) && E.AllFit(target, order) && AllApart(target) && Prepared(source, target, order)
    modifies AllBlockSet(target)
    ensures legal <==> (forall i :: 0 <= i < |dc| ==> Legal(dc[i], true)) && (forall i :: 0 <= i < |ac| ==> Legal(ac[i], false))
    ensures legal ==> x.dc == dc && x.ac == ac && AllMcusOk(x, comps, old(E.ScanUnits(source, order)))
    ensures ok <==> legal && PassCodable(x, comps, old(E.ScanUnits(source, order)), interval)
    ensures ok ==> bytes == PassBytes(x, comps, old(E.ScanUnits(source, order)), interval) + [0xFF, 0xD9]
    ensures ok ==> AllBlocks(target, order) == AllSources(old(E.ScanUnits(source, order)))
    ensures ok ==> left.ending == 0xD9 && left.after == [] && |left.bits| <= 7
  {
    hide Shape, View, IsZigzag, TablesOk, DerivedFor, AllSlots, AllBlocks, E.ScanUnits, AllMcusOk, PassBytes, PassCodable,
      AllSources, AllBlanks, Fits, NoPred, AllApart, AllBlockSet, E.AllFit, RefsFit, Legal;
    bytes, left := [], Stream([], 0, []);
    var t, dcs, acs;
    ok, t, dcs, acs := DeriveAll(dc, ac);
    legal, x := ok, t;
    if ok {
      RefsAgain(t, comps, source, order);
      RefsAgain(t, comps, target, order);
      ghost var us := E.ScanUnits(source, order);
      ok, bytes := EncodePass(t, comps, interval, source, order);
      if ok {
        left := DecodePass(t, dcs, acs, comps, interval, us, bytes, target, order);
      }
    }
  }

  lemma {:induction false} RefsAgain(x: Tables, comps: nat, mcus: seq<seq<Ref>>, order: seq<nat>)
    requires forall i :: 0 <= i < |mcus| ==> RefsFit(Tables(x.dc, x.ac, [], []), comps, mcus[i], order)
    ensures forall i :: 0 <= i < |mcus| ==> RefsFit(x, comps, mcus[i], order)
  {
  }
}
