// A whole AC scan decoded in place from bytes that arrive in pieces, and the scan's way from
// coefficients through statistics, table and bytes back to coefficients.
module AcArrival {
  import opened BitPacking
  import opened Coefficients
  import opened Tokens
  import opened AcRefine
  import opened HuffmanCodes
  import opened HuffmanDecoding
  import opened DerivedTables
  import opened SequentialScan
  import opened SequentialStream
  import opened TokenBytes
  import opened TokenReader
  import opened ProgressiveStream
  import AC = AcScan
  import P = ProgressiveDecoder
  import O = ProgressiveOptimal
  import OC = OptimalCoding
  import PR = ProgressiveRoundTrip
  import RT = SequentialRoundTrip
  import SS = SymbolStatistics

  ghost predicate AllBlocks(ds: seq<seq<int>>) {
    forall i :: 0 <= i < |ds| ==> |ds[i]| == 64
  }

  /** What decoding the rest of the scan, the blocks ds, will give. */
  ghost function Ahead(d: Decoder, b: Band, ts: seq<Token>, ds: seq<seq<int>>): AC.ScanOut
    requires BandOk(b) && AllBlocks(ds)
    reads d
  {
    AC.BlocksWithRestarts(ds, d.restartInterval, d.restartsToGo, d.nextRestartNum);
    AC.DecodeScan(b, ts, d.eobrun, WithRestarts(ds, d.restartInterval, d.restartsToGo, d.nextRestartNum))
  }

  /** The next MCU of a scan that can be decoded: it is finished, or left as good as untouched. */
  method Step(d: Decoder, tbl: DTbl, b: Band, block: array<int>, order: seq<nat>, ghost x: Tables, ghost ts: seq<Token>, ghost later: seq<Byte>, ghost e: Stream,
              ghost ds: seq<seq<int>>, ghost done: seq<seq<int>>) returns (ok: bool, ghost ts1: seq<Token>)
    requires d.Holds(x, ts, later, e) && BandOk(b) && Fits(block, order) && TableFor(x, b.tbl, tbl)
    requires AllBlocks(ds) && ds != [] && ds[0] == View(block, order) && Ahead(d, b, ts, ds).Decoded?
    modifies d, block
    ensures d.Holds(x, ts1, later, e) && (!ok ==> d.Ending().0 == 0)
    ensures ok ==> P.Prepend(done + [View(block, order)], Ahead(d, b, ts1, ds[1..])) == old(P.Prepend(done, Ahead(d, b, ts, ds)))
    ensures !ok ==> Ahead(d, b, ts1, ds[0 := View(block, order)]) == old(Ahead(d, b, ts, ds))
  {
    hide View, IsZigzag, AC.DecodeBlock, AC.DecodeScan, WithRestarts, AC.Cons, Decoder.Holds, TableFor;
    P.ScanAhead(b, ts, d.eobrun, ds, d.restartInterval, d.restartsToGo, d.nextRestartNum);
    ok, ts1 := d.DecodeAc(tbl, b, block, order, x, ts, later, e);
    if ok {
      P.PrependMore(done, View(block, order), Ahead(d, b, ts1, ds[1..]));
    } else {
      ghost var now := ds[0 := View(block, order)];
      assert now[1..] == ds[1..];
      P.ScanAhead(b, ts1, d.eobrun, now, d.restartInterval, d.restartsToGo, d.nextRestartNum);
    }
  }

  /** If all has arrived and the last segment ends in a marker, nothing is missing. */
  lemma {:induction false} NothingMissing(d: Decoder, x: Tables, ts: seq<Token>, e: Stream)
    requires d.Holds(x, ts, [], e) && d.Ending().0 == 0
    ensures e.ending == 0
  {
    hide Leads, Readable, Extend, Marker, AfterMarker;
    if e.ending != 0 {
      EndingComes(x, d.All([]), ts, e);
      d.EndingOf([]);
      NothingComes(d.Ending(), d.input);
    }
  }

  lemma {:induction false} NothingComes(ending: (Byte, seq<Byte>), input: seq<Byte>)
    requires Marker(input) == 0 && ending == (0, AfterMarker(input))
    ensures Extend([], ending, []).ending == 0
  {
    hide Data, Marker, AfterMarker, ToBits;
    DataSplit(input, []);
    assert input + [] == input;
  }

  lemma {:induction false} FlatFrom(arrivals: seq<seq<Byte>>, used: nat)
    requires used < |arrivals|
    ensures Flat(arrivals[used..]) == arrivals[used] + Flat(arrivals[used + 1..])
  {
    assert arrivals[used..][1..] == arrivals[used + 1..];
  }

  /** The blocks as they are, from the i-th on. */
  ghost predicate Current(blocks: seq<array<int>>, order: seq<nat>, i: nat, rest: seq<seq<int>>)
    requires IsZigzag(order) && forall j :: 0 <= j < |blocks| ==> blocks[j].Length == 64
    reads set j | 0 <= j < |blocks| :: blocks[j]
  {
    i + |rest| == |blocks| && AllBlocks(rest) && forall j :: i <= j < |blocks| ==> View(blocks[j], order) == rest[j - i]
  }

  /** One call for the i-th block of a scan: the others stay as they are. */
  method StepOf(d: Decoder, tbl: DTbl, b: Band, blocks: seq<array<int>>, i: nat, order: seq<nat>,
                ghost x: Tables, ghost ts: seq<Token>, ghost later: seq<Byte>, ghost e: Stream, ghost rest: seq<seq<int>>, ghost done: seq<seq<int>>)
    returns (ok: bool, ghost ts1: seq<Token>, ghost rest1: seq<seq<int>>)
    requires d.Holds(x, ts, later, e) && BandOk(b) && IsZigzag(order) && TableFor(x, b.tbl, tbl)
    requires forall j :: 0 <= j < |blocks| ==> blocks[j].Length == 64
    requires forall j, k :: 0 <= j < k < |blocks| ==> blocks[j] != blocks[k]
    requires i < |blocks| && Current(blocks, order, i, rest) && Ahead(d, b, ts, rest).Decoded?
    modifies d, blocks[i]
    ensures d.Holds(x, ts1, later, e) && (!ok ==> d.Ending().0 == 0)
    ensures Current(blocks, order, if ok then i + 1 else i, rest1)
    ensures P.Prepend(if ok then done + [View(blocks[i], order)] else done, Ahead(d, b, ts1, rest1)) == old(P.Prepend(done, Ahead(d, b, ts, rest)))
    ensures Ahead(d, b, ts1, rest1).Decoded?
  {
    hide View, IsZigzag, BandOk, Decoder.Holds, TableFor, Ahead;
    assert Fits(blocks[i], order);
    ok, ts1 := Step(d, tbl, b, blocks[i], order, x, ts, later, e, rest, done);
    rest1 := if ok then rest[1..] else rest[0 := View(blocks[i], order)];
  }

  /** A whole AC scan, in place, whatever the pieces its input arrives in: when a call runs out
      of input, the next piece is waited for and the call repeated.  What comes out is what the
      scan's tokens decode to.  It is left unfinished only if no marker ends the input. */
  method DecodeArriving(d: Decoder, tbl: DTbl, b: Band, blocks: seq<array<int>>, order: seq<nat>, arrivals: seq<seq<Byte>>,
                        ghost x: Tables, ghost ts: seq<Token>, ghost e: Stream) returns (ok: bool, used: nat, ghost ts1: seq<Token>)
    requires BandOk(b) && IsZigzag(order) && TableFor(x, b.tbl, tbl) && d.Holds(x, ts, Flat(arrivals), e)
    requires d.eobrun == 0 && d.restartsToGo == d.restartInterval && d.nextRestartNum == 0
    requires forall j :: 0 <= j < |blocks| ==> blocks[j].Length == 64
    requires forall j, k :: 0 <= j < k < |blocks| ==> blocks[j] != blocks[k]
    requires AC.DecodePass(b, ts, ViewAll(blocks, order), d.restartInterval).Decoded?
    modifies d, set j | 0 <= j < |blocks| :: blocks[j]
    ensures used <= |arrivals| && d.Holds(x, ts1, Flat(arrivals[used..]), e)
    ensures ok ==> AC.DecodePass(b, ts, old(ViewAll(blocks, order)), d.restartInterval) == AC.Decoded(ViewAll(blocks, order), ts1)
    ensures !ok ==> used == |arrivals| && e.ending == 0
  {
    hide View, ViewAll, IsZigzag, BandOk, AC.DecodePass, WithRestarts, P.Prepend, Ahead, Decoder.Holds, TableFor, AllBlocks;
    ghost var rest := ViewAll(blocks, order);
    ViewsFit(blocks, order);
    PassAhead(d, b, ts, rest);
    ghost var whole := AC.DecodePass(b, ts, rest, d.restartInterval);
    ghost var done: seq<seq<int>> := [];
    ts1, used := ts, 0;
    assert arrivals[0..] == arrivals;
    var i := 0;
    while i < |blocks|
      invariant 0 <= i == |done| <= |blocks| && used <= |arrivals|
      invariant d.Holds(x, ts1, Flat(arrivals[used..]), e) && AllBlocks(rest) && Current(blocks, order, i, rest)
      invariant forall j :: 0 <= j < i ==> View(blocks[j], order) == done[j]
      invariant whole == P.Prepend(done, Ahead(d, b, ts1, rest)) && Ahead(d, b, ts1, rest).Decoded?
      decreases |arrivals| - used, |blocks| - i
    {
      ok, ts1, rest := StepOf(d, tbl, b, blocks, i, order, x, ts1, Flat(arrivals[used..]), e, rest, done);
      CurrentBlocks(blocks, order, if ok then i + 1 else i, rest);
      if ok {
        done := done + [View(blocks[i], order)];
        i := i + 1;
      } else if used == |arrivals| {
        NoneLeft(arrivals);
        NothingMissing(d, x, ts1, e);
        return;
      } else {
        FlatFrom(arrivals, used);
        Take(d, b, arrivals[used], x, ts1, Flat(arrivals[used + 1..]), e, rest);
        used := used + 1;
      }
    }
    AheadOfNone(d, b, ts1, rest, done);
    assert ViewAll(blocks, order) == done;
    ok := true;
  }

  lemma {:induction false} NoneLeft(arrivals: seq<seq<Byte>>)
    ensures Flat(arrivals[|arrivals|..]) == []
  {
  }

  lemma {:induction false} ViewsFit(blocks: seq<array<int>>, order: seq<nat>)
    requires IsZigzag(order) && forall j :: 0 <= j < |blocks| ==> blocks[j].Length == 64
    ensures AllBlocks(ViewAll(blocks, order)) && Current(blocks, order, 0, ViewAll(blocks, order))
  {
    hide View, IsZigzag, ViewAll;
  }

  lemma {:induction false} CurrentBlocks(blocks: seq<array<int>>, order: seq<nat>, i: nat, rest: seq<seq<int>>)
    requires IsZigzag(order) && forall j :: 0 <= j < |blocks| ==> blocks[j].Length == 64
    requires Current(blocks, order, i, rest)
    ensures AllBlocks(rest) && i + |rest| == |blocks|
  {
    hide View, IsZigzag;
  }

  lemma {:induction false} PassAhead(d: Decoder, b: Band, ts: seq<Token>, ds: seq<seq<int>>)
    requires BandOk(b) && AllBlocks(ds) && d.eobrun == 0 && d.restartsToGo == d.restartInterval && d.nextRestartNum == 0
    ensures AC.DecodePass(b, ts, ds, d.restartInterval) == P.Prepend([], Ahead(d, b, ts, ds)) == Ahead(d, b, ts, ds)
  {
    P.PrependNone(Ahead(d, b, ts, ds));
    hide AC.DecodeScan, WithRestarts;
  }

  lemma {:induction false} AheadOfNone(d: Decoder, b: Band, ts: seq<Token>, rest: seq<seq<int>>, done: seq<seq<int>>)
    requires BandOk(b) && rest == []
    ensures P.Prepend(done, Ahead(d, b, ts, rest)) == AC.Decoded(done, ts)
  {
    P.ScanEnds(b, ts, d.eobrun, d.restartInterval, d.restartsToGo, d.nextRestartNum);
    assert done + [] == done;
  }

  /** The next piece of input changes nothing else. */
  method Take(d: Decoder, ghost b: Band, more: seq<Byte>, ghost x: Tables, ghost ts: seq<Token>, ghost later: seq<Byte>, ghost e: Stream, ghost rest: seq<seq<int>>)
    requires d.Holds(x, ts, more + later, e) && BandOk(b) && AllBlocks(rest)
    modifies d`input
    ensures d.Holds(x, ts, later, e) && Ahead(d, b, ts, rest) == old(Ahead(d, b, ts, rest))
  {
    hide Leads, Readable, Extend, AC.DecodeScan, WithRestarts, Marker, AfterMarker;
    d.Receive(more, later);
  }

  // ----- there and back -----

  /** Input cut into pieces of the given sizes, with whatever is left as the last. */
  function Cut(bytes: seq<Byte>, sizes: seq<nat>): (pieces: seq<seq<Byte>>)
    ensures Flat(pieces) == bytes
    decreases |sizes|
  {
    if sizes == [] || sizes[0] > |bytes| then
      assert [bytes][1..] == [] && bytes + [] == bytes;
      [bytes]
    else
      var later := Cut(bytes[sizes[0]..], sizes[1..]);
      assert ([bytes[..sizes[0]]] + later)[1..] == later;
      [bytes[..sizes[0]]] + later
  }

  /** The decoder's form of a table that is legal for the encoder. */
  method Derive(x: Tables, tbl: Table) returns (d: DTbl)
    requires TablesOk(x) && tbl.Ac? && tbl.no < |x.ac|
    ensures TableFor(x, tbl, d)
  {
    hide Kraft, Total, DTblOk, Encodes, Readable, SymbolsUpTo;
    assert TableOk(x.ac[tbl.no], false, x.acc[tbl.no]);
    TablesReadable(x);
    var ok;
    ok, d := MakeDDerived(x.ac[tbl.no], false);
  }

  /** The bytes of a scan and an end-of-image marker answer with the scan's tokens. */
  lemma {:induction false} Answers(x: Tables, ts: seq<Token>) returns (e: Stream)
    requires TablesOk(x) && AllSendable(x, ts)
    ensures Readable(x) && e.ending == 0xD9 && Leads(x, Open(StreamBytes(x, [], ts) + [0xFF, 0xD9]), ts, e)
  {
    hide TablesOk, Readable, AllSendable, StreamBytes, Leads, Open, Data, Marker, AfterMarker;
    RT.EndOfImage();
    var rest := TokenBytes.Found(x, [], ts, [0xFF, 0xD9]);
    var s := Open(StreamBytes(x, [], ts) + [0xFF, 0xD9]);
    assert s.bits[0..] == s.bits;
    e := Stream(rest, 0xD9, []);
  }

  /** Main result for the running code of an AC scan: the coefficients of the source are counted,
      a table is made for them and they are written; the bytes, arriving in pieces of any
      sizes, are read into the target, which then shows every block down to bit al.  Only a
      coefficient out of range or a code size above 32 is a failure. */
  method ThereAndBack(b: Band, interval: nat, source: seq<array<int>>, target: seq<array<int>>, order: seq<nat>, sizes: seq<nat>) returns (o: OC.Optimised)
    requires BandOk(b) && b.tbl.Ac? && IsZigzag(order) && |source| == |target| > 0
    requires forall i :: 0 <= i < |source| ==> source[i].Length == 64 && target[i].Length == 64
    requires forall i, j :: 0 <= i < j < |target| ==> target[i] != target[j]
    requires |AC.PassTokens(b, ViewAll(source, order), interval)| < 1_000_000_000
    requires O.AllInRange(b, ViewAll(source, order)) ==> AC.AllOk(b, PR.Pairs(source, target, order))
    modifies set i | 0 <= i < |target| :: target[i]
    ensures o.OutOfRange? <==> !old(O.AllInRange(b, ViewAll(source, order)))
    ensures o.CodesTooLong? ==> OC.Overlong(old(AC.PassTokens(b, ViewAll(source, order), interval)), b.tbl)
    ensures o.Coded? ==> ViewAll(target, order) == old(AC.NewAll(b, PR.Pairs(source, target, order)))
  {
    hide View, ViewAll, IsZigzag, BandOk, AC.PassTokens, AC.DecodePass, AC.NewAll, AC.AllOk, AC.Zs, AC.Ds, O.AllInRange, TablesOk, AllSendable,
      StreamBytes, Leads, Readable, Extend, Decoder.All, TableFor, PR.Pairs, Open, SS.Optimal, Cut;
    ghost var xs, ts := PR.Pairs(source, target, order), AC.PassTokens(b, ViewAll(source, order), interval);
    var x;
    o, x := O.OptimiseThenSend(b, interval, source, order);
    if o.Coded? {
      ghost var e := Answers(x, ts);
      AC.PassDecodes(b, xs, interval);
      var tbl := Derive(x, b.tbl);
      var pieces := Cut(o.bytes + [0xFF, 0xD9], sizes);
      var d := new Decoder(1, interval, []);
      assert [] + Flat(pieces) == o.bytes + [0xFF, 0xD9];
      var ok, used;
      ghost var ts1;
      ok, used, ts1 := DecodeArriving(d, tbl, b, target, order, pieces, x, ts, e);
    }
  }
}
