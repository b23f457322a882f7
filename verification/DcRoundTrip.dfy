// Whole DC scans: the decoder object run over every MCU and restart marker of a scan, and
// encoder and decoder run back to back.
module DcRoundTrip {
  import opened Tokens
  import opened DcScan
  import opened DcDecoder
  import P = ProgressiveDecoder
  import E = DcEncoder

  /** The blocks of one MCU with the scan component each belongs to. */
  datatype Mcu = Mcu(cis: seq<nat>, blocks: seq<array<int>>)

  ghost function BlockSet(m: Mcu): set<array<int>> {
    set i | 0 <= i < |m.blocks| :: m.blocks[i]
  }

  ghost function AllBlockSet(mcus: seq<Mcu>): set<array<int>> {
    set i, j | 0 <= i < |mcus| && 0 <= j < |mcus[i].blocks| :: mcus[i].blocks[j]
  }

  ghost predicate AllMembers(b: DcBand, mcus: seq<Mcu>) {
    forall i :: 0 <= i < |mcus| ==> Member(b, mcus[i].cis, mcus[i].blocks)
  }

  /** No block belongs to two MCUs. */
  ghost predicate AllApart(mcus: seq<Mcu>) {
    forall i, j :: 0 <= i < j < |mcus| ==> BlockSet(mcus[i]) !! BlockSet(mcus[j])
  }

  ghost function AllSlots(b: DcBand, mcus: seq<Mcu>): (ss: seq<seq<Slot>>)
    requires AllMembers(b, mcus)
    reads set i, j | 0 <= i < |mcus| && 0 <= j < |mcus[i].blocks| :: mcus[i].blocks[j]
    ensures |ss| == |mcus| && forall i :: 0 <= i < |ss| ==> ss[i] == Slots(mcus[i].cis, mcus[i].blocks)
  {
    if mcus == [] then [] else
      assert Member(b, mcus[0].cis, mcus[0].blocks);
      [Slots(mcus[0].cis, mcus[0].blocks)] + AllSlots(b, mcus[1..])
  }

  ghost function AllContents(b: DcBand, mcus: seq<Mcu>): (cs: seq<seq<seq<int>>>)
    requires AllMembers(b, mcus)
    reads set i, j | 0 <= i < |mcus| && 0 <= j < |mcus[i].blocks| :: mcus[i].blocks[j]
    ensures |cs| == |mcus| && forall i :: 0 <= i < |cs| ==> cs[i] == Contents(mcus[i].blocks)
  {
    if mcus == [] then [] else
      assert Member(b, mcus[0].cis, mcus[0].blocks);
      [Contents(mcus[0].blocks)] + AllContents(b, mcus[1..])
  }

  ghost predicate AllSlotsOk(b: DcBand, slots: seq<seq<Slot>>) {
    forall i :: 0 <= i < |slots| ==> SlotsOk(b, slots[i])
  }

  lemma {:induction false} MembersOk(b: DcBand, mcus: seq<Mcu>)
    requires AllMembers(b, mcus)
    ensures AllSlotsOk(b, AllSlots(b, mcus))
  {
    var slots := AllSlots(b, mcus);
    forall i | 0 <= i < |slots| ensures SlotsOk(b, slots[i]) {
      assert Member(b, mcus[i].cis, mcus[i].blocks);
      hide AllSlots, Slots;
    }
  }

  /** The DC terms of an MCU are vals and everything else is as it was. */
  ghost predicate Set(m: Mcu, was: seq<seq<int>>, vals: seq<int>)
    reads set i | 0 <= i < |m.blocks| :: m.blocks[i]
  {
    BlocksOk(m.blocks) && |was| == |vals| == |m.blocks| && Changed(m.blocks, was, vals)
  }

  function Prepend(done: seq<seq<int>>, o: DcScanOut): DcScanOut {
    if o.Decoded? then Decoded(done + o.mcus, o.ts) else Failed
  }

  lemma {:induction false} PrependNone(o: DcScanOut)
    ensures Prepend([], o) == o
  {
    if o.Decoded? {
      assert [] + o.mcus == o.mcus;
    }
  }

  lemma {:induction false} PrependMore(done: seq<seq<int>>, m: seq<int>, o: DcScanOut)
    ensures Prepend(done, Cons(m, o)) == Prepend(done + [m], o)
  {
    if o.Decoded? {
      Assoc3(done, [m], o.mcus);
    }
  }

  /** One MCU in the decoding of a scan. */
  lemma {:induction false} ScanAhead(b: DcBand, ts: seq<Token>, pred: seq<int>, slots: seq<seq<Slot>>, interval: nat, togo: nat, num: nat)
    requires AllSlotsOk(b, slots) && |pred| == |b.tbls| && slots != [] && SlotsOk(b, slots[0])
    ensures SlotEventsOk(b, WithRestarts(slots, interval, togo, num))
    ensures var due := interval > 0 && togo == 0;
      var num1 := if due then (num + 1) % 8 else num;
      var evs1 := WithRestarts(slots[1..], interval, TogoAfter(interval, togo), num1);
      && SlotEventsOk(b, evs1)
      && DecodeScan(b, ts, pred, WithRestarts(slots, interval, togo, num))
         == if due && (ts == [] || ts[0] != Rst(num)) then Failed
            else match DecodeMcu(b, if due then ts[1..] else ts, if due then NoPred(b) else pred, slots[0])
              case McuDone(ts1, pred1, vals) => Cons(vals, DecodeScan(b, ts1, pred1, evs1))
              case _ => Failed
    decreases togo == 0
  {
    hide DecodeMcu, SlotsOk, NoPred;
    SlotsWithRestarts(b, slots, interval, togo, num);
    var evs := WithRestarts(slots, interval, togo, num);
    if interval > 0 && togo == 0 {
      var later := WithRestarts(slots, interval, interval, (num + 1) % 8);
      assert evs[1..] == later;
      SlotsWithRestarts(b, slots[1..], interval, interval - 1, (num + 1) % 8);
      if ts != [] && ts[0] == Rst(num) {
        ScanAhead(b, ts[1..], NoPred(b), slots, interval, interval, (num + 1) % 8);
      }
    } else {
      assert evs[1..] == WithRestarts(slots[1..], interval, TogoAfter(interval, togo), num);
      SlotsWithRestarts(b, slots[1..], interval, TogoAfter(interval, togo), num);
    }
  }

  /** What decoding the rest of a scan will give. */
  ghost function Ahead(d: Decoder, slots: seq<seq<Slot>>): DcScanOut
    reads d
    requires |d.lastDcVal| == |d.band.tbls| && AllSlotsOk(d.band, slots)
  {
    SlotsWithRestarts(d.band, slots, d.restartInterval, d.restartsToGo, d.nextRestartNum);
    DecodeScan(d.band, d.input, d.lastDcVal, WithRestarts(slots, d.restartInterval, d.restartsToGo, d.nextRestartNum))
  }

  /** The next MCU of a scan of which slots are still to come. */
  method ScanStep(d: Decoder, m: Mcu, ghost slots: seq<seq<Slot>>, ghost done: seq<seq<int>>) returns (verdict: P.Verdict, ghost vals: seq<int>)
    requires |d.lastDcVal| == |d.band.tbls| && Member(d.band, m.cis, m.blocks)
    requires AllSlotsOk(d.band, slots) && slots != [] && slots[0] == Slots(m.cis, m.blocks)
    modifies d, BlockSet(m)
    ensures |d.lastDcVal| == |d.band.tbls| && AllSlotsOk(d.band, slots[1..])
    ensures verdict == P.Done ==> Set(m, old(Contents(m.blocks)), vals)
    ensures verdict == P.Done ==> old(Prepend(done, Ahead(d, slots))) == Prepend(done + [vals], Ahead(d, slots[1..]))
    ensures verdict != P.Done ==> old(Prepend(done, Ahead(d, slots))) == Failed
  {
    hide Slots, Contents, Changed, DecodeScan, WithRestarts, Cons, NoPred;
    ScanAhead(d.band, d.input, d.lastDcVal, slots, d.restartInterval, d.restartsToGo, d.nextRestartNum);
    verdict, vals := d.DecodeNext(m.cis, m.blocks);
    if verdict == P.Done {
      PrependMore(done, vals, Ahead(d, slots[1..]));
    }
  }

  lemma {:induction false} InOther(mcus: seq<Mcu>, i: nat, j: nat)
    requires AllApart(mcus) && i < |mcus| && j < |mcus| && i != j
    ensures forall k :: 0 <= k < |mcus[j].blocks| ==> mcus[j].blocks[k] !in BlockSet(mcus[i])
  {
    forall k | 0 <= k < |mcus[j].blocks| ensures mcus[j].blocks[k] !in BlockSet(mcus[i]) {
      assert mcus[j].blocks[k] in BlockSet(mcus[j]);
    }
  }

  lemma {:induction false} InAll(mcus: seq<Mcu>, i: nat)
    requires i < |mcus|
    ensures BlockSet(mcus[i]) <= AllBlockSet(mcus)
  {
  }

  /** An MCU not yet reached. */
  ghost predicate Untouched(m: Mcu, slots: seq<Slot>, was: seq<seq<int>>)
    requires BlocksOk(m.blocks) && |m.cis| == |m.blocks|
    reads set i | 0 <= i < |m.blocks| :: m.blocks[i]
  {
    Slots(m.cis, m.blocks) == slots && Contents(m.blocks) == was
  }

  /** ScanStep on the i-th MCU of a scan: the blocks of all others stay as they are. */
  method StepOf(d: Decoder, mcus: seq<Mcu>, i: nat, ghost slots: seq<seq<Slot>>, ghost was: seq<seq<seq<int>>>, ghost done: seq<seq<int>>)
    returns (verdict: P.Verdict, ghost vals: seq<int>)
    requires |d.lastDcVal| == |d.band.tbls| && AllMembers(d.band, mcus) && AllApart(mcus) && i == |done| < |mcus|
    requires |slots| == |was| == |mcus| && AllSlotsOk(d.band, slots[i..])
    requires forall j :: i <= j < |mcus| ==> Untouched(mcus[j], slots[j], was[j])
    requires forall j :: 0 <= j < i ==> Set(mcus[j], was[j], done[j])
    modifies d, BlockSet(mcus[i])
    ensures |d.lastDcVal| == |d.band.tbls| && AllSlotsOk(d.band, slots[i + 1..])
    ensures forall j :: i < j < |mcus| ==> Untouched(mcus[j], slots[j], was[j])
    ensures verdict == P.Done ==> forall j :: 0 <= j <= i ==> Set(mcus[j], was[j], (done + [vals])[j])
    ensures verdict == P.Done ==> old(Prepend(done, Ahead(d, slots[i..]))) == Prepend(done + [vals], Ahead(d, slots[i + 1..]))
    ensures verdict != P.Done ==> old(Prepend(done, Ahead(d, slots[i..]))) == Failed
  {
    hide Slots, Contents, Changed, Prepend, Ahead, AllSlotsOk;
    assert Member(d.band, mcus[i].cis, mcus[i].blocks) && Untouched(mcus[i], slots[i], was[i]);
    assert slots[i..][0] == slots[i] && slots[i..][1..] == slots[i + 1..];
    verdict, vals := ScanStep(d, mcus[i], slots[i..], done);
    forall j: nat | j < |mcus| && j != i
      ensures j < i ==> Set(mcus[j], was[j], done[j])
      ensures j > i ==> Untouched(mcus[j], slots[j], was[j])
    {
      InOther(mcus, i, j);
    }
  }

  /** A whole DC scan: the decoder object gives what the specification of a scan says, in
      place, and touches nothing but the DC terms. */
  method DecodeWhole(d: Decoder, mcus: seq<Mcu>) returns (verdict: P.Verdict)
    requires AllMembers(d.band, mcus) && AllApart(mcus)
    requires d.lastDcVal == NoPred(d.band) && d.restartsToGo == d.restartInterval && d.nextRestartNum == 0
    modifies d, AllBlockSet(mcus)
    ensures AllSlotsOk(d.band, old(AllSlots(d.band, mcus)))
    ensures match DecodePass(d.band, old(d.input), old(AllSlots(d.band, mcus)), d.restartInterval)
      case Decoded(vals, ts) =>
        && verdict == P.Done && d.input == ts && |vals| == |mcus|
        && forall i :: 0 <= i < |mcus| ==> Set(mcus[i], old(AllContents(d.band, mcus))[i], vals[i])
      case Failed => verdict != P.Done
  {
    hide Slots, Contents, Changed, Prepend, Ahead, Set, DecodePass, NoPred, AllApart, AllSlots, AllContents;
    ghost var slots, was := AllSlots(d.band, mcus), AllContents(d.band, mcus);
    MembersOk(d.band, mcus);
    ghost var whole := Ahead(d, slots);
    PassAhead(d, slots);
    ghost var done: seq<seq<int>> := [];
    PrependNone(whole);
    assert slots[0..] == slots;
    var i := 0;
    while i < |mcus|
      invariant 0 <= i == |done| <= |mcus| && |d.lastDcVal| == |d.band.tbls| && AllSlotsOk(d.band, slots[i..])
      invariant forall j :: i <= j < |mcus| ==> Untouched(mcus[j], slots[j], was[j])
      invariant forall j :: 0 <= j < i ==> Set(mcus[j], was[j], done[j])
      invariant whole == Prepend(done, Ahead(d, slots[i..]))
    {
      InAll(mcus, i);
      ghost var vals;
      verdict, vals := StepOf(d, mcus, i, slots, was, done);
      if verdict != P.Done {
        return;
      }
      done := done + [vals];
      i := i + 1;
    }
    assert slots[i..] == [];
    NothingLeft(d, done);
    verdict := P.Done;
  }

  lemma {:induction false} PassAhead(d: Decoder, slots: seq<seq<Slot>>)
    requires AllSlotsOk(d.band, slots)
    requires d.lastDcVal == NoPred(d.band) && d.restartsToGo == d.restartInterval && d.nextRestartNum == 0
    ensures Ahead(d, slots) == DecodePass(d.band, d.input, slots, d.restartInterval)
  {
    hide DecodeScan, WithRestarts;
  }

  lemma {:induction false} NothingLeft(d: Decoder, done: seq<seq<int>>)
    requires |d.lastDcVal| == |d.band.tbls|
    ensures Prepend(done, Ahead(d, [])) == Decoded(done, d.input)
  {
    assert done + [] == done;
  }

  /** A whole DC scan from its tokens. */
  method DecodeTokens(b: DcBand, interval: nat, mcus: seq<Mcu>, ts: seq<Token>) returns (verdict: P.Verdict)
    requires AllMembers(b, mcus) && AllApart(mcus) && AllSlotsOk(b, AllSlots(b, mcus)) && DecodePass(b, ts, AllSlots(b, mcus), interval).Decoded?
    modifies AllBlockSet(mcus)
    ensures verdict == P.Done
    ensures var o := DecodePass(b, ts, old(AllSlots(b, mcus)), interval);
      |o.mcus| == |mcus| && forall i :: 0 <= i < |mcus| ==> Set(mcus[i], old(AllContents(b, mcus))[i], o.mcus[i])
  {
    hide AllSlots, AllContents, Set, NoPred, AllApart, AllMembers, DecodePass, SlotsOk, AllBlockSet;
    var decoder := new Decoder(b, interval);
    decoder.input := ts;
    verdict := DecodeWhole(decoder, mcus);
  }

  /** Main result for the running code: one DC scan, encoded from source values and decoded
      into the blocks of mcus, brings every DC term to bit al of its source and changes nothing
      else.  It fails exactly when a difference of a first scan is out of range. */
  method EncodeThenDecode(b: DcBand, interval: nat, source: seq<seq<Visit>>, mcus: seq<Mcu>) returns (ok: bool, verdict: P.Verdict)
    requires AllMembers(b, mcus) && AllApart(mcus) && McusMatch(b, source, AllSlots(b, mcus)) && E.AllVisitsOk(b, source)
    modifies AllBlockSet(mcus)
    ensures ok <==> E.DiffsFitFrom(b, NoPred(b), source, interval, interval)
    ensures ok ==> verdict == P.Done && |source| == |mcus|
    ensures ok ==> forall i :: 0 <= i < |mcus| ==> Set(mcus[i], old(AllContents(b, mcus))[i], Shown(b, source[i]))
  {
    hide AllSlots, AllContents, Set, NoPred, Shown, AllApart, AllMembers, DecodePass, PassTokens, McuOk, McusMatch, E.DiffsFitFrom, VisitsOk, SlotsOk, AllBlockSet;
    MembersOk(b, mcus);
    WholeDecodes(b, source, AllSlots(b, mcus), interval);
    var ts;
    ok, ts := EncodeWhole(b, interval, source);
    verdict := P.Done;
    if ok {
      verdict := DecodeTokens(b, interval, mcus, ts);
    }
  }

  method EncodeWhole(b: DcBand, interval: nat, source: seq<seq<Visit>>) returns (ok: bool, ts: seq<Token>)
    requires E.AllVisitsOk(b, source)
    ensures ok <==> E.DiffsFitFrom(b, NoPred(b), source, interval, interval)
    ensures ok ==> ts == PassTokens(b, source, interval)
  {
    hide NoPred, PassTokens, E.DiffsFitFrom;
    var encoder := new E.Encoder(b, false, interval);
    ok := encoder.EncodeScan(source);
    ts := encoder.out;
  }

  lemma {:induction false} WholeDecodes(b: DcBand, source: seq<seq<Visit>>, slots: seq<seq<Slot>>, interval: nat)
    requires McusMatch(b, source, slots) && E.AllVisitsOk(b, source) && AllSlotsOk(b, slots)
    ensures |source| == |slots|
    ensures var o := DecodePass(b, PassTokens(b, source, interval), slots, interval);
      o.Decoded? && o.ts == [] && |o.mcus| == |source| && forall i :: 0 <= i < |source| ==> o.mcus[i] == Shown(b, source[i])
  {
    hide DecodePass, PassTokens, Shown, McuOk, SlotsOk;
    PassDecodes(b, source, slots, interval);
  }
}
