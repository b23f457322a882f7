// A whole DC scan decoded in place from bytes that arrive in pieces, and the scan's way from DC
// values through statistics, tables and bytes back to DC terms.
module DcArrival {
  import opened BitPacking
  import opened Tokens
  import opened DcScan
  import opened HuffmanCodes
  import opened HuffmanDecoding
  import opened DerivedTables
  import SC = SequentialScan
  import ST = SequentialStream
  import opened TokenBytes
  import opened TokenReader
  import opened DcRoundTrip
  import PS = ProgressiveStream
  import A = AcArrival
  import DR = DcReader
  import I = DcDecoder
  import E = DcEncoder
  import O = DcOptimal
  import OC = OptimalCoding
  import SS = SymbolStatistics

  /** What decoding the rest of the scan, the blocks of slots, will give. */
  ghost function Ahead(d: PS.Decoder, b: DcBand, ts: seq<Token>, slots: seq<seq<Slot>>): DcScanOut
    requires AllSlotsOk(b, slots) && |d.lastDcVal| == |b.tbls|
    reads d
  {
    SlotsWithRestarts(b, slots, d.restartInterval, d.restartsToGo, d.nextRestartNum);
    DecodeScan(b, ts, d.lastDcVal, WithRestarts(slots, d.restartInterval, d.restartsToGo, d.nextRestartNum))
  }

  /** An MCU not yet finished: all but its DC terms is as it was, and these are those of the slots. */
  ghost predicate Pending(m: Mcu, was: seq<seq<int>>, slots: seq<Slot>)
    reads set i | 0 <= i < |m.blocks| :: m.blocks[i]
  {
    && I.BlocksOk(m.blocks) && |m.cis| == |m.blocks| == |was| && I.Slots(m.cis, m.blocks) == slots
    && Alike(I.Contents(m.blocks), was)
  }

  ghost predicate Alike(now: seq<seq<int>>, was: seq<seq<int>>) {
    |now| == |was| && forall i :: 0 <= i < |was| ==> |now[i]| == |was[i]| == 64 && now[i] == was[i][0 := now[i][0]]
  }

  lemma {:induction false} PendingAtFirst(m: Mcu)
    requires I.BlocksOk(m.blocks) && |m.cis| == |m.blocks|
    ensures Pending(m, I.Contents(m.blocks), I.Slots(m.cis, m.blocks))
  {
    hide I.Contents, I.Slots;
  }

  /** After a call on an MCU, finished or not. */
  lemma {:induction false} ChangedAgain(m: Mcu, was: seq<seq<int>>, cur: seq<seq<int>>, vals: seq<int>)
    requires I.BlocksOk(m.blocks) && |m.cis| == |m.blocks| == |cur| && Alike(cur, was) && I.Changed(m.blocks, cur, vals)
    ensures Pending(m, was, I.Slots(m.cis, m.blocks))
    ensures |vals| == |m.blocks| ==> Set(m, was, vals)
  {
    hide I.Contents, I.Slots;
  }

  /** The next MCU of a scan that can be decoded: it is finished, or left as good as untouched. */
  method Step(d: PS.Decoder, dcs: seq<DTbl>, b: DcBand, m: Mcu, ghost x: SC.Tables, ghost ts: seq<Token>, ghost later: seq<Byte>, ghost e: ST.Stream,
              ghost was: seq<seq<int>>, ghost slots: seq<seq<Slot>>, ghost done: seq<seq<int>>)
    returns (ok: bool, ghost ts1: seq<Token>, ghost vals: seq<int>)
    requires d.Holds(x, ts, later, e) && d.comps == |b.tbls| == |d.lastDcVal| && (b.ah == 0 ==> DR.TablesFor(x, b, dcs))
    requires AllSlotsOk(b, slots) && slots != [] && Pending(m, was, slots[0]) && I.Member(b, m.cis, m.blocks)
    requires Ahead(d, b, ts, slots).Decoded?
    modifies d, BlockSet(m)
    ensures d.Holds(x, ts1, later, e) && |d.lastDcVal| == |b.tbls| && (!ok ==> d.Ending().0 == 0)
    ensures ok ==> Set(m, was, vals) && AllSlotsOk(b, slots[1..])
    ensures ok ==> Prepend(done + [vals], Ahead(d, b, ts1, slots[1..])) == old(Prepend(done, Ahead(d, b, ts, slots)))
    ensures !ok ==> Pending(m, was, I.Slots(m.cis, m.blocks)) && AllSlotsOk(b, slots[0 := I.Slots(m.cis, m.blocks)])
    ensures !ok ==> Ahead(d, b, ts1, slots[0 := I.Slots(m.cis, m.blocks)]) == old(Ahead(d, b, ts, slots))
  {
    hide DecodeMcu, DecodeScan, WithRestarts, Cons, PS.Decoder.Holds, DR.TablesFor, I.Slots, I.Contents, I.Changed, Alike, NoPred, Set;
    ghost var cur := I.Contents(m.blocks);
    ScanAhead(b, ts, d.lastDcVal, slots, d.restartInterval, d.restartsToGo, d.nextRestartNum);
    Comps(d, x, ts, later, e);
    ok, ts1, vals := d.DecodeDc(dcs, b, m.cis, m.blocks, x, ts, later, e);
    Comps(d, x, ts1, later, e);
    ChangedAgain(m, was, cur, vals);
    if ok {
      PrependMore(done, vals, Ahead(d, b, ts1, slots[1..]));
    } else {
      ghost var now := slots[0 := I.Slots(m.cis, m.blocks)];
      assert now[1..] == slots[1..];
      SlotsStillOk(b, m, slots);
      ScanAhead(b, ts1, d.lastDcVal, now, d.restartInterval, d.restartsToGo, d.nextRestartNum);
    }
  }

  lemma {:induction false} SlotsStillOk(b: DcBand, m: Mcu, slots: seq<seq<Slot>>)
    requires AllSlotsOk(b, slots) && slots != [] && I.Member(b, m.cis, m.blocks)
    ensures SlotsOk(b, I.Slots(m.cis, m.blocks)) && AllSlotsOk(b, slots[0 := I.Slots(m.cis, m.blocks)])
  {
    hide I.Slots;
  }

  lemma {:induction false} Comps(d: PS.Decoder, x: SC.Tables, ts: seq<Token>, later: seq<Byte>, e: ST.Stream)
    requires d.Holds(x, ts, later, e)
    ensures |d.lastDcVal| == d.comps
  {
    hide Leads, SC.Readable, Extend;
  }

  /** The MCUs from the i-th on, as they are. */
  ghost predicate Current(b: DcBand, mcus: seq<Mcu>, i: nat, was: seq<seq<seq<int>>>, rest: seq<seq<Slot>>)
    requires AllMembers(b, mcus)
    reads set j, k | 0 <= j < |mcus| && 0 <= k < |mcus[j].blocks| :: mcus[j].blocks[k]
  {
    && |was| == |mcus| && i + |rest| == |mcus| && AllSlotsOk(b, rest)
    && forall j :: i <= j < |mcus| ==> Pending(mcus[j], was[j], rest[j - i])
  }

  ghost predicate Finished(mcus: seq<Mcu>, was: seq<seq<seq<int>>>, done: seq<seq<int>>)
    reads set j, k | 0 <= j < |mcus| && 0 <= k < |mcus[j].blocks| :: mcus[j].blocks[k]
  {
    |was| == |mcus| && |done| <= |mcus| && forall j :: 0 <= j < |done| ==> Set(mcus[j], was[j], done[j])
  }

  /** One call for the i-th MCU of a scan: the others stay as they are. */
  method StepOf(d: PS.Decoder, dcs: seq<DTbl>, b: DcBand, mcus: seq<Mcu>, i: nat, ghost x: SC.Tables, ghost ts: seq<Token>, ghost later: seq<Byte>, ghost e: ST.Stream,
                ghost was: seq<seq<seq<int>>>, ghost rest: seq<seq<Slot>>, ghost done: seq<seq<int>>)
    returns (ok: bool, ghost ts1: seq<Token>, ghost rest1: seq<seq<Slot>>, ghost done1: seq<seq<int>>)
    requires d.Holds(x, ts, later, e) && d.comps == |b.tbls| == |d.lastDcVal| && (b.ah == 0 ==> DR.TablesFor(x, b, dcs))
    requires AllMembers(b, mcus) && AllApart(mcus) && i == |done| < |mcus|
    requires Current(b, mcus, i, was, rest) && Finished(mcus, was, done) && Ahead(d, b, ts, rest).Decoded?
    modifies d, BlockSet(mcus[i])
    ensures d.Holds(x, ts1, later, e) && |d.lastDcVal| == |b.tbls| && (!ok ==> d.Ending().0 == 0)
    ensures |done1| == (if ok then i + 1 else i) && Current(b, mcus, |done1|, was, rest1) && Finished(mcus, was, done1)
    ensures Ahead(d, b, ts1, rest1).Decoded? && Prepend(done1, Ahead(d, b, ts1, rest1)) == old(Prepend(done, Ahead(d, b, ts, rest)))
  {
    hide PS.Decoder.Holds, DR.TablesFor, Ahead, Set, Pending, Prepend, I.Slots, AllSlotsOk;
    ghost var vals;
    var m := mcus[i];
    assert I.Member(b, m.cis, m.blocks);
    DecodedStays(done, Ahead(d, b, ts, rest));
    ok, ts1, vals := Step(d, dcs, b, m, x, ts, later, e, was[i], rest, done);
    rest1 := if ok then rest[1..] else rest[0 := I.Slots(m.cis, m.blocks)];
    done1 := if ok then done + [vals] else done;
    DecodedStays(done1, Ahead(d, b, ts1, rest1));
    forall j: nat | j < |mcus| && j != i
      ensures j < i ==> Set(mcus[j], was[j], done[j])
      ensures j > i ==> Pending(mcus[j], was[j], rest[j - i])
    {
      InOther(mcus, i, j);
    }
  }

  lemma {:induction false} DecodedStays(done: seq<seq<int>>, o: DcScanOut)
    ensures Prepend(done, o).Decoded? <==> o.Decoded?
  {
  }

  /** A whole DC scan, in place, whatever the pieces its input arrives in: when a call runs out
      of input, the next piece is waited for and the call repeated.  What comes out is what the
      scan's tokens decode to, and nothing but DC terms is touched.  It is left unfinished only if
      no marker ends the input. */
  method DecodeArriving(d: PS.Decoder, dcs: seq<DTbl>, b: DcBand, mcus: seq<Mcu>, arrivals: seq<seq<Byte>>,
                        ghost x: SC.Tables, ghost ts: seq<Token>, ghost e: ST.Stream) returns (ok: bool, used: nat, ghost ts1: seq<Token>)
    requires d.Holds(x, ts, Flat(arrivals), e) && d.comps == |b.tbls| && (b.ah == 0 ==> DR.TablesFor(x, b, dcs))
    requires d.lastDcVal == NoPred(b) && d.restartsToGo == d.restartInterval && d.nextRestartNum == 0
    requires AllMembers(b, mcus) && AllApart(mcus) && AllSlotsOk(b, AllSlots(b, mcus))
    requires DecodePass(b, ts, AllSlots(b, mcus), d.restartInterval).Decoded?
    modifies d, AllBlockSet(mcus)
    ensures used <= |arrivals| && d.Holds(x, ts1, Flat(arrivals[used..]), e)
    ensures ok ==>
      var o := DecodePass(b, ts, old(AllSlots(b, mcus)), d.restartInterval);
      && o.ts == ts1 && |o.mcus| == |mcus|
      && forall i :: 0 <= i < |mcus| ==> Set(mcus[i], old(AllContents(b, mcus))[i], o.mcus[i])
    ensures !ok ==> used == |arrivals| && e.ending == 0
  {
    hide PS.Decoder.Holds, DR.TablesFor, Ahead, Set, Prepend, I.Slots, AllSlots, AllContents, DecodePass, NoPred, AllApart, AllMembers, SlotsOk,
      Current, Finished;
    ghost var rest, was := AllSlots(b, mcus), AllContents(b, mcus);
    AtFirst(b, mcus);
    PassAhead(d, b, ts, rest);
    ghost var whole := DecodePass(b, ts, rest, d.restartInterval);
    ghost var done: seq<seq<int>> := [];
    ts1, used := ts, 0;
    assert arrivals[0..] == arrivals;
    var i := 0;
    while i < |mcus|
      invariant 0 <= i == |done| <= |mcus| && used <= |arrivals| && |d.lastDcVal| == |b.tbls|
      invariant d.Holds(x, ts1, Flat(arrivals[used..]), e) && AllSlotsOk(b, rest)
      invariant Current(b, mcus, i, was, rest) && Finished(mcus, was, done)
      invariant Ahead(d, b, ts1, rest).Decoded? && whole == Prepend(done, Ahead(d, b, ts1, rest))
      decreases |arrivals| - used, |mcus| - i
    {
      InAll(mcus, i);
      ok, ts1, rest, done := StepOf(d, dcs, b, mcus, i, x, ts1, Flat(arrivals[used..]), e, was, rest, done);
      CurrentSlots(b, mcus, |done|, was, rest);
      if ok {
        i := i + 1;
      } else if used == |arrivals| {
        A.NoneLeft(arrivals);
        A.NothingMissing(d, x, ts1, e);
        return;
      } else {
        A.FlatFrom(arrivals, used);
        Take(d, b, arrivals[used], x, ts1, Flat(arrivals[used + 1..]), e, rest);
        used := used + 1;
      }
    }
    CurrentSlots(b, mcus, i, was, rest);
    AheadOfNone(d, b, ts1, rest, done);
    AllFinished(mcus, was, done);
    ok := true;
  }

  lemma {:induction false} AllFinished(mcus: seq<Mcu>, was: seq<seq<seq<int>>>, done: seq<seq<int>>)
    requires Finished(mcus, was, done) && |done| == |mcus|
    ensures |was| == |mcus| && forall i :: 0 <= i < |mcus| ==> Set(mcus[i], was[i], done[i])
  {
    hide Set;
  }

  lemma {:induction false} AtFirst(b: DcBand, mcus: seq<Mcu>)
    requires AllMembers(b, mcus) && AllSlotsOk(b, AllSlots(b, mcus))
    ensures Current(b, mcus, 0, AllContents(b, mcus), AllSlots(b, mcus)) && Finished(mcus, AllContents(b, mcus), [])
  {
    hide AllSlots, AllContents, I.Slots, I.Contents, Pending, AllSlotsOk;
    var was, rest := AllContents(b, mcus), AllSlots(b, mcus);
    forall j | 0 <= j < |mcus| ensures Pending(mcus[j], was[j], rest[j]) {
      assert I.Member(b, mcus[j].cis, mcus[j].blocks);
      PendingAtFirst(mcus[j]);
    }
  }

  lemma {:induction false} CurrentSlots(b: DcBand, mcus: seq<Mcu>, i: nat, was: seq<seq<seq<int>>>, rest: seq<seq<Slot>>)
    requires AllMembers(b, mcus) && Current(b, mcus, i, was, rest)
    ensures AllSlotsOk(b, rest) && |was| == |mcus| && i + |rest| == |mcus|
  {
    hide Pending, AllSlotsOk;
  }

  lemma {:induction false} PassAhead(d: PS.Decoder, b: DcBand, ts: seq<Token>, slots: seq<seq<Slot>>)
    requires AllSlotsOk(b, slots) && d.lastDcVal == NoPred(b) && d.restartsToGo == d.restartInterval && d.nextRestartNum == 0
    ensures DecodePass(b, ts, slots, d.restartInterval) == Prepend([], Ahead(d, b, ts, slots)) == Ahead(d, b, ts, slots)
  {
    PrependNone(Ahead(d, b, ts, slots));
    hide DecodeScan, WithRestarts;
  }

  lemma {:induction false} AheadOfNone(d: PS.Decoder, b: DcBand, ts: seq<Token>, rest: seq<seq<Slot>>, done: seq<seq<int>>)
    requires |d.lastDcVal| == |b.tbls| && rest == []
    ensures AllSlotsOk(b, rest) && Prepend(done, Ahead(d, b, ts, rest)) == Decoded(done, ts)
  {
    assert done + [] == done;
  }

  /** The next piece of input changes nothing else. */
  method Take(d: PS.Decoder, ghost b: DcBand, more: seq<Byte>, ghost x: SC.Tables, ghost ts: seq<Token>, ghost later: seq<Byte>, ghost e: ST.Stream,
              ghost rest: seq<seq<Slot>>)
    requires d.Holds(x, ts, more + later, e) && AllSlotsOk(b, rest) && |d.lastDcVal| == |b.tbls|
    modifies d`input
    ensures d.Holds(x, ts, later, e) && Ahead(d, b, ts, rest) == old(Ahead(d, b, ts, rest))
  {
    hide Leads, SC.Readable, Extend, DecodeScan, WithRestarts, Marker, AfterMarker;
    d.Receive(more, later);
  }

  // ----- there and back -----

  /** The decoder's forms of DC tables that are legal for the encoder. */
  method Derive(x: SC.Tables) returns (dcs: seq<DTbl>)
    requires SC.TablesOk(x)
    ensures |dcs| == |x.dc| && forall no :: 0 <= no < |dcs| ==> DR.DcTable(x, Dc(no), dcs[no])
  {
    hide Kraft, Total, DTblOk, Encodes, SC.Readable, SymbolsUpTo;
    SC.TablesReadable(x);
    dcs := [];
    for i := 0 to |x.dc|
      invariant |dcs| == i && forall no :: 0 <= no < i ==> DR.DcTable(x, Dc(no), dcs[no])
    {
      assert SC.TableOk(x.dc[i], true, x.dcc[i]);
      var ok, d := MakeDDerived(x.dc[i], true);
      dcs := dcs + [d];
    }
  }

  lemma {:induction false} InTables(x: SC.Tables, b: DcBand, dcs: seq<DTbl>)
    requires |dcs| == |x.dc| && forall no :: 0 <= no < |dcs| ==> DR.DcTable(x, Dc(no), dcs[no])
    requires forall no :: no in b.tbls ==> no < |x.dc|
    ensures DR.TablesFor(x, b, dcs)
  {
    hide DR.DcTable;
    forall c | 0 <= c < |b.tbls| ensures b.tbls[c] < |dcs| && DR.DcTable(x, Dc(b.tbls[c]), dcs[b.tbls[c]]) {
      assert b.tbls[c] in b.tbls;
    }
  }

  /** The bytes of a scan and an end-of-image marker, in pieces of any sizes, read into blocks. */
  method ReadBack(b: DcBand, interval: nat, mcus: seq<Mcu>, x: SC.Tables, bytes: seq<Byte>, sizes: seq<nat>, ghost ts: seq<Token>)
    requires AllMembers(b, mcus) && AllApart(mcus) && AllSlotsOk(b, AllSlots(b, mcus)) && DecodePass(b, ts, AllSlots(b, mcus), interval).Decoded?
    requires SC.TablesOk(x) && AllSendable(x, ts) && bytes == StreamBytes(x, [], ts)
    requires b.ah == 0 ==> forall no :: no in b.tbls ==> no < |x.dc|
    modifies AllBlockSet(mcus)
    ensures var o := DecodePass(b, ts, old(AllSlots(b, mcus)), interval);
      |o.mcus| == |mcus| && forall i :: 0 <= i < |mcus| ==> Set(mcus[i], old(AllContents(b, mcus))[i], o.mcus[i])
  {
    hide AllSlots, AllContents, Set, NoPred, ST.NoPred, AllApart, AllMembers, DecodePass, SlotsOk, SC.TablesOk, AllSendable, StreamBytes,
      Leads, SC.Readable, Extend, PS.Decoder.All, ST.Open, A.Cut, DR.DcTable, DR.TablesFor;
    ghost var e := A.Answers(x, ts);
    var dcs := Derive(x);
    if b.ah == 0 {
      InTables(x, b, dcs);
    }
    var pieces := A.Cut(bytes + [0xFF, 0xD9], sizes);
    var d := new PS.Decoder(|b.tbls|, interval, []);
    d.SameNoPred(b);
    assert [] + Flat(pieces) == bytes + [0xFF, 0xD9];
    var ok, used;
    ghost var ts1;
    ok, used, ts1 := DecodeArriving(d, dcs, b, mcus, pieces, x, ts, e);
  }

  /** Main result for the running code of a DC scan: the values of the source are counted, tables are
      made for them and they are written; the bytes, arriving in pieces of any sizes, are read into
      the blocks of mcus, whose DC terms then show every value down to bit al, and nothing else
      changes.  Only a difference out of range or a code size above 32 is a failure. */
  method ThereAndBack(b: DcBand, interval: nat, source: seq<seq<Visit>>, mcus: seq<Mcu>, sizes: seq<nat>) returns (o: OC.Optimised)
    requires AllMembers(b, mcus) && AllApart(mcus) && McusMatch(b, source, AllSlots(b, mcus)) && E.AllVisitsOk(b, source)
    requires b.tbls != [] && (b.ah == 0 ==> O.Seen(b, source)) && |PassTokens(b, source, interval)| < 1_000_000_000
    modifies AllBlockSet(mcus)
    ensures o.OutOfRange? <==> !E.DiffsFitFrom(b, NoPred(b), source, interval, interval)
    ensures o.CodesTooLong? ==> b.ah == 0 && exists no :: no in b.tbls && OC.Overlong(PassTokens(b, source, interval), Dc(no))
    ensures o.Coded? ==> |source| == |mcus|
    ensures o.Coded? ==> forall i :: 0 <= i < |mcus| ==> Set(mcus[i], old(AllContents(b, mcus))[i], Shown(b, source[i]))
  {
    hide AllSlots, AllContents, Set, NoPred, Shown, VisitsOk, SlotsOk, AllApart, AllMembers, DecodePass, PassTokens, McuOk, McusMatch, E.DiffsFitFrom, O.Seen,
      SC.TablesOk, AllSendable, StreamBytes, SS.Optimal, OC.Overlong, AllBlockSet;
    MembersOk(b, mcus);
    WholeDecodes(b, source, AllSlots(b, mcus), interval);
    var x;
    o, x := O.OptimiseThenSend(b, interval, source);
    if o.Coded? {
      ReadBack(b, interval, mcus, x, o.bytes, sizes, PassTokens(b, source, interval));
    }
  }
}
