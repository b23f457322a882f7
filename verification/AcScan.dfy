// A whole AC scan, first or refining: any number of blocks, EOB runs that span blocks,
// restart markers, and the guarantee that decoding shows every coefficient of the band
// down to bit al.
module AcScan {
  import opened Arith
  import opened Coefficients
  import opened Tokens
  import opened AcRefine
  import opened AcFirst

  /** A block on its way through a scan: the true coefficients z, the decoder's view d. */
  datatype Pair = Pair(z: seq<int>, d: seq<int>)

  /** Before a first scan the band is still zero; before a refinement it shows bit al + 1. */
  ghost predicate PairOk(b: Band, x: Pair) {
    && |x.z| == 64 && |x.d| == 64 && BandOk(b)
    && if b.ah == 0 then BandClear(b, x.d) && InRange(b, x.z) else ShowsBand(b, x.z, x.d, b.al + 1)
  }

  /** The block with its band shown down to bit al and everything else untouched. */
  function New(b: Band, x: Pair): seq<int>
    requires |x.z| == |x.d| == 64
  {
    Partly(b, x.z, x.d, b.se + 1)
  }

  /** encode_mcu_AC_first or encode_mcu_AC_refine, as start_pass_phuff selects. */
  function CodeOf(b: Band, z: seq<int>): BlockCode
    requires BandOk(b) && |z| == 64
  {
    if b.ah == 0 then FirstCode(b, z, b.ss, 0) else BlockRefinement(b, z)
  }

  /** decode_mcu_AC_first or decode_mcu_AC_refine on one block. */
  function DecodeBlock(b: Band, ts: seq<Token>, run: nat, d: seq<int>): (o: BlockOut)
    requires BandOk(b) && |d| == 64
    ensures o.BlockDone? || o.BlockStarved? ==> |o.d| == 64
  {
    if b.ah != 0 then DecodeRefine(b, ts, run, d)
    else if run > 0 then BlockDone(ts, run - 1, d)
    else match FirstLoop(b, ts, b.ss, d)
      case FirstDone(ts1, run1, d1) => BlockDone(ts1, run1, d1)
      case FirstStarved(d1) => BlockStarved(d1)
      case FirstGarbled => BlockGarbled
  }

  ghost predicate PairsOk(b: Band, evs: seq<Event<Pair>>) {
    && BandOk(b)
    && forall i :: 0 <= i < |evs| && evs[i].Item? ==> |evs[i].x.z| == 64 && |evs[i].x.d| == 64 && PairOk(b, evs[i].x)
  }

  function CodeEvent(b: Band, e: Event<Pair>): Event<BlockCode>
    requires BandOk(b) && (e.Item? ==> |e.x.z| == 64)
  {
    if e.Item? then Item(CodeOf(b, e.x.z)) else Restart(e.num)
  }

  /** What the encoder makes of each event. */
  function Codes(b: Band, evs: seq<Event<Pair>>): seq<Event<BlockCode>>
    requires BandOk(b) && forall i :: 0 <= i < |evs| && evs[i].Item? ==> |evs[i].x.z| == 64
  {
    seq(|evs|, i requires 0 <= i < |evs| => CodeEvent(b, evs[i]))
  }

  /** The decoder's image of each event. */
  function Olds(evs: seq<Event<Pair>>): seq<Event<seq<int>>> {
    seq(|evs|, i requires 0 <= i < |evs| => if evs[i].Item? then Item(evs[i].x.d) else Restart(evs[i].num))
  }

  /** The blocks a scan leaves behind. */
  function News(b: Band, evs: seq<Event<Pair>>): seq<seq<int>>
    requires forall i :: 0 <= i < |evs| && evs[i].Item? ==> |evs[i].x.z| == |evs[i].x.d| == 64
  {
    if evs == [] then []
    else (if evs[0].Item? then [New(b, evs[0].x)] else []) + News(b, evs[1..])
  }

  datatype ScanOut = Decoded(blocks: seq<seq<int>>, ts: seq<Token>) | Failed

  function Cons(d: seq<int>, o: ScanOut): ScanOut {
    if o.Decoded? then Decoded([d] + o.blocks, o.ts) else Failed
  }

  /** Decoding every MCU of a scan; a restart marker must be the expected
      one and resets the EOB run (process_restart). */
  function DecodeScan(b: Band, ts: seq<Token>, run: nat, evs: seq<Event<seq<int>>>): ScanOut
    requires BandOk(b) && forall i :: 0 <= i < |evs| && evs[i].Item? ==> |evs[i].x| == 64
    decreases |evs|
  {
    if evs == [] then Decoded([], ts)
    else match evs[0]
      case Restart(num) =>
        if ts != [] && ts[0] == Rst(num) then DecodeScan(b, ts[1..], 0, evs[1..]) else Failed
      case Item(d) =>
        match DecodeBlock(b, ts, run, d)
        case BlockDone(ts1, run1, d1) => Cons(d1, DecodeScan(b, ts1, run1, evs[1..]))
        case _ => Failed
  }

  // ----- the three ways a block is decoded -----

  /** A block inside an EOB run: its correction bits alone. */
  lemma {:induction false} JoinedBlockDecodes(b: Band, x: Pair, j: nat, rest: seq<Token>)
    requires PairOk(b, x) && CodeOf(b, x.z).head == [] && j > 0
    ensures DecodeBlock(b, BitTokens(CodeOf(b, x.z).tail) + rest, j, x.d) == BlockDone(rest, j - 1, New(b, x))
  {
    assert Partly(b, x.z, x.d, b.ss) == x.d;
    if b.ah == 0 {
      assert AllVanish(b, x.z, b.ss, b.ss);
      FirstHeadEmpty(b, x.z, b.ss, 0);
      PartlyVanish(b, x.z, x.d, b.ss, b.se + 1);
      assert BitTokens([]) + rest == rest;
      hide Partly, FirstCode;
    } else {
      var a := Magnitudes(x.z, b.al);
      CodeIsOk(b, x.z, x.d);
      TailDecodes(b, x.z, a, x.d, b.ss, rest);
      hide RefineTail, Partly, BlockRefinement, CorrBits;
    }
  }

  lemma {:induction false} FirstHeadEmpty(b: Band, z: seq<int>, k: nat, r: nat)
    requires BandOk(b) && |z| == 64 && k <= b.se + 1 && FirstCode(b, z, k, r).head == []
    ensures AllVanish(b, z, k, b.se + 1) && FirstCode(b, z, k, r).tail == []
    ensures FirstCode(b, z, k, r).eob <==> r > 0 || k <= b.se
    decreases b.se + 1 - k
  {
    if k <= b.se && AcPoint(z[k], b.al) == 0 {
      hide AcPoint;
      FirstHeadEmpty(b, z, k + 1, r + 1);
    }
  }

  lemma {:induction false} CutOne(a: Token, bits: seq<Token>, rest: seq<Token>)
    ensures var ts := ([a] + [] + bits) + rest; ts[0] == a && ts[1..] == bits + rest
  {
  }

  lemma {:induction false} CutTwo(a: Token, c: Token, bits: seq<Token>, rest: seq<Token>)
    ensures var ts := ([a] + [c] + bits) + rest; ts[0] == a && ts[1] == c && ts[1..][1..] == bits + rest
  {
  }

  /** Reading the EOBn symbol of a run of `run` blocks, and its low bits. */
  lemma {:induction false} EobHeads(tbl: Table, run: nat, corr: seq<bool>, rest: seq<Token>)
    requires 0 < run <= MAX_EOBRUN
    ensures var n, ts, after := NBits(run) - 1, EobTokens(tbl, run, corr) + rest, BitTokens(corr) + rest;
      && 0 <= n <= 14 && ReadSym(ts, tbl).GotSym? && ReadSym(ts, tbl).s == n * 16
      && (n == 0 ==> run == 1 && ReadSym(ts, tbl).rest == after)
      && (n > 0 ==> ReadBits(ReadSym(ts, tbl).rest, n) == Got(run % Pow2(n), after) && Pow2(n) + run % Pow2(n) == run)
  {
    EobValue(run);
    hide BitTokens, Pow2, NBits;
    var n, bits := NBits(run) - 1, BitTokens(corr);
    if n > 0 {
      CutTwo(Sym(tbl, n * 16), Bits(run % Pow2(n), n), bits, rest);
    } else {
      CutOne(Sym(tbl, n * 16), bits, rest);
    }
  }

  lemma {:induction false} RefineEobRead(b: Band, run: nat, corr: seq<bool>, rest: seq<Token>, k: nat, d: seq<int>, newnz: seq<nat>)
    requires BandOk(b) && |d| == 64 && InBlock(newnz) && k <= b.se && 0 < run <= MAX_EOBRUN
    ensures RefineLoop(b, EobTokens(b.tbl, run, corr) + rest, k, d, newnz)
         == LoopDone(BitTokens(corr) + rest, k, run, d, newnz)
  {
    hide EobTokens, BitTokens, NBits, Skip, Undo, ReadSym, ReadBits;
    EobHeads(b.tbl, run, corr, rest);
    assert Pow2(0) == 1;
    hide Pow2;
  }

  lemma {:induction false} FirstEobRead(b: Band, run: nat, corr: seq<bool>, rest: seq<Token>, k: nat, d: seq<int>)
    requires BandOk(b) && |d| == 64 && k <= b.se && 0 < run <= MAX_EOBRUN
    ensures FirstLoop(b, EobTokens(b.tbl, run, corr) + rest, k, d) == FirstDone(BitTokens(corr) + rest, run - 1, d)
  {
    hide EobTokens, BitTokens, NBits, HuffExtend, ReadSym, ReadBits;
    EobHeads(b.tbl, run, corr, rest);
    assert Pow2(0) == 1;
    hide Pow2;
  }

  lemma {:induction false} DecodeToEob(b: Band, ts: seq<Token>, d: seq<int>, ts1: seq<Token>, k: nat, run: nat, d1: seq<int>, newnz: seq<nat>,
                    ts2: seq<Token>, d2: seq<int>)
    requires BandOk(b) && |d| == 64 && |d1| == 64 && |d2| == 64 && InBlock(newnz) && run > 0
    requires RefineLoop(b, ts, b.ss, d, []) == LoopDone(ts1, k, run, d1, newnz)
    requires RefineTail(b, ts1, k, d1) == SkipTo(ts2, b.se + 1, d2)
    ensures DecodeRefine(b, ts, 0, d) == BlockDone(ts2, run - 1, d2)
  {
    hide RefineLoop, RefineTail;
  }

  /** HeadDecodes from the start of a block. */
  lemma {:induction false} RefineHead(b: Band, x: Pair, rest: seq<Token>) returns (k1: nat, newnz: seq<nat>)
    requires PairOk(b, x) && b.ah != 0
    ensures InBlock(newnz) && b.ss <= k1 <= b.se + 1
    ensures var a, c := Magnitudes(x.z, b.al), BlockRefinement(b, x.z);
      && (c.eob <==> k1 <= b.se) && NoNew(a, k1, b.se + 1) && c.tail == CorrBits(a, k1, b.se + 1)
      && RefineLoop(b, c.head + rest, b.ss, x.d, []) == RefineLoop(b, rest, k1, Partly(b, x.z, x.d, k1), newnz)
  {
    var a := Magnitudes(x.z, b.al);
    WindowStart(b, a, b.ss, b.ss);
    k1, newnz := HeadDecodes(b, x.z, a, x.d, b.ss, b.ss, b.ss, 0, rest, []);
    assert Partly(b, x.z, x.d, b.ss) == x.d;
    assert CorrBits(a, b.ss, b.ss) == [];
    hide RefineLoop, Partly, CorrBits, Decoding;
  }

  /** FirstDecodes from the start of a block. */
  lemma {:induction false} FirstHead(b: Band, x: Pair, rest: seq<Token>) returns (k1: nat)
    requires PairOk(b, x) && b.ah == 0
    ensures b.ss <= k1 <= b.se + 1
    ensures var c := FirstCode(b, x.z, b.ss, 0);
      && (c.eob <==> k1 <= b.se) && c.tail == []
      && FirstLoop(b, c.head + rest, b.ss, x.d) == FirstLoop(b, rest, k1, New(b, x))
  {
    assert AllVanish(b, x.z, b.ss, b.ss) && Partly(b, x.z, x.d, b.ss) == x.d;
    k1 := FirstDecodes(b, x.z, x.d, b.ss, b.ss, rest);
    PartlyVanish(b, x.z, x.d, k1, b.se + 1);
    hide FirstLoop, FirstCode, Partly, AcPoint;
  }

  lemma {:induction false} FirstEobDecodes(b: Band, x: Pair, j: nat, more: seq<bool>, rest: seq<Token>)
    requires PairOk(b, x) && b.ah == 0 && 1 + j <= MAX_EOBRUN && FirstCode(b, x.z, b.ss, 0).eob
    ensures var c := FirstCode(b, x.z, b.ss, 0);
      FirstLoop(b, c.head + (EobTokens(b.tbl, 1 + j, c.tail + more) + rest), b.ss, x.d)
      == FirstDone(BitTokens(more) + rest, j, New(b, x))
  {
    assert BandOk(b) && |x.z| == |x.d| == 64;
    hide *;
    var c := FirstCode(b, x.z, b.ss, 0);
    var eobs := EobTokens(b.tbl, 1 + j, c.tail + more) + rest;
    var k1 := FirstHead(b, x, eobs);
    assert [] + more == more;
    FirstEobRead(b, 1 + j, more, rest, k1, New(b, x));
  }

  lemma {:induction false} RefineEobDecodes(b: Band, x: Pair, j: nat, more: seq<bool>, rest: seq<Token>)
    requires PairOk(b, x) && b.ah != 0 && 1 + j <= MAX_EOBRUN && BlockRefinement(b, x.z).eob
    ensures var c := BlockRefinement(b, x.z);
      DecodeRefine(b, c.head + (EobTokens(b.tbl, 1 + j, c.tail + more) + rest), 0, x.d)
      == BlockDone(BitTokens(more) + rest, j, New(b, x))
  {
    var c := BlockRefinement(b, x.z);
    var eobs := EobTokens(b.tbl, 1 + j, c.tail + more) + rest;
    var k1, newnz := RefineHead(b, x, eobs);
    var a, d1 := Magnitudes(x.z, b.al), Partly(b, x.z, x.d, k1);
    assert Decoding(b, x.z, a, x.d);
    assert New(b, x) == Partly(b, x.z, x.d, b.se + 1);
    hide *;
    RefineEobRead(b, 1 + j, c.tail + more, rest, k1, d1, newnz);
    TailDecodes(b, x.z, a, x.d, k1, BitTokens(more) + rest);
    BitTokensConcat(c.tail, more);
    Assoc3(BitTokens(c.tail), BitTokens(more), rest);
    DecodeToEob(b, c.head + eobs, x.d, BitTokens(c.tail + more) + rest, k1, 1 + j, d1, newnz, BitTokens(more) + rest, New(b, x));
  }

  /** A block that ends in an EOB, decoded with a run counting it and j more blocks. */
  lemma {:induction false} EobBlockDecodes(b: Band, x: Pair, j: nat, more: seq<bool>, rest: seq<Token>)
    requires PairOk(b, x) && 1 + j <= MAX_EOBRUN && CodeOf(b, x.z).eob
    ensures var c := CodeOf(b, x.z);
      DecodeBlock(b, c.head + (EobTokens(b.tbl, 1 + j, c.tail + more) + rest), 0, x.d)
      == BlockDone(BitTokens(more) + rest, j, New(b, x))
  {
    if b.ah == 0 {
      FirstEobDecodes(b, x, j, more, rest);
    } else {
      RefineEobDecodes(b, x, j, more, rest);
    }
    hide FirstLoop, FirstCode, EobTokens, BitTokens, New, DecodeRefine, BlockRefinement;
  }

  /** A block coded to its last coefficient, without an EOB. */
  lemma {:induction false} FullBlockDecodes(b: Band, x: Pair, rest: seq<Token>)
    requires PairOk(b, x) && !CodeOf(b, x.z).eob
    ensures DecodeBlock(b, CodeOf(b, x.z).head + rest, 0, x.d) == BlockDone(rest, 0, New(b, x))
  {
    if b.ah == 0 {
      assert AllVanish(b, x.z, b.ss, b.ss) && Partly(b, x.z, x.d, b.ss) == x.d;
      var k1 := FirstDecodes(b, x.z, x.d, b.ss, b.ss, rest);
      assert k1 == b.se + 1;
      assert FirstLoop(b, rest, k1, Partly(b, x.z, x.d, k1)) == FirstDone(rest, 0, Partly(b, x.z, x.d, k1));
      hide FirstLoop, FirstCode, Partly, AcPoint;
    } else {
      var k1, newnz := RefineHead(b, x, rest);
      assert RefineLoop(b, rest, k1, Partly(b, x.z, x.d, k1), newnz)
          == LoopDone(rest, k1, 0, Partly(b, x.z, x.d, k1), newnz);
      hide RefineLoop, Partly, BlockRefinement, CorrBits;
    }
  }

  lemma {:induction false} CodeOfOk(b: Band, x: Pair)
    requires PairOk(b, x)
    ensures BlockCodeOk(CodeOf(b, x.z))
  {
    if b.ah == 0 {
      assert AllVanish(b, x.z, b.ss, b.ss);
      var k1 := FirstDecodes(b, x.z, x.d, b.ss, b.ss, []);
      if CodeOf(b, x.z).head == [] {
        FirstHeadEmpty(b, x.z, b.ss, 0);
      }
    } else {
      CodeIsOk(b, x.z, x.d);
    }
    hide FirstLoop, FirstCode, Partly, AcPoint, BlockRefinement;
  }

  // ----- the scan -----

  /** The j blocks left of an EOB run are decoded from their correction bits alone. */
  lemma {:induction false} RunDecodes(b: Band, j: nat, evs: seq<Event<Pair>>, rest: seq<Token>)
    requires PairsOk(b, evs) && j <= |evs| && forall i :: 0 <= i < j ==> JoinsRun(Codes(b, evs)[i])
    requires DecodeScan(b, rest, 0, Olds(evs[j..])) == Decoded(News(b, evs[j..]), [])
    ensures DecodeScan(b, BitTokens(Tails(Codes(b, evs)[..j])) + rest, j, Olds(evs)) == Decoded(News(b, evs), [])
    decreases j
  {
    var cs := Codes(b, evs);
    if j == 0 {
      assert evs[0..] == evs;
      assert BitTokens(Tails(cs[..0])) + rest == rest;
    } else {
      assert JoinsRun(cs[0]) && PairOk(b, evs[0].x);
      EventTails(b, evs);
      assert cs[..j][1..] == Codes(b, evs[1..])[..j - 1] && cs[..j][0] == cs[0];
      assert evs[1..][j - 1..] == evs[j..];
      forall i | 0 <= i < j - 1 ensures JoinsRun(Codes(b, evs[1..])[i]) {
        assert JoinsRun(cs[i + 1]);
      }
      var x, bits, later := evs[0].x, CodeOf(b, evs[0].x.z).tail, Tails(Codes(b, evs[1..])[..j - 1]);
      assert Tails(cs[..j]) == bits + later;
      assert CodeOf(b, x.z).head == [];
      hide *;
      RunDecodes(b, j - 1, evs[1..], rest);
      JoinedBlockDecodes(b, x, j, BitTokens(later) + rest);
      BitTokensConcat(bits, later);
      Assoc3(BitTokens(bits), BitTokens(later), rest);
      ScanItem(b, BitTokens(bits + later) + rest, BitTokens(later) + rest, j, j - 1, evs);
    }
  }

  lemma {:induction false} RestartStep(tbl: Table, cs: seq<Event<BlockCode>>)
    requires cs != [] && cs[0].Restart?
    ensures RunTokens(tbl, RunState(0, []), cs) == [Rst(cs[0].num)] + RunTokens(tbl, RunState(0, []), cs[1..])
  {
    assert EobTokens(tbl, 0, []) == [];
    hide EobTokens;
  }

  lemma {:induction false} FullStep(tbl: Table, cs: seq<Event<BlockCode>>)
    requires cs != [] && cs[0].Item? && !cs[0].x.eob
    ensures RunTokens(tbl, RunState(0, []), cs) == cs[0].x.head + RunTokens(tbl, RunState(0, []), cs[1..])
  {
    assert EobTokens(tbl, 0, []) == [];
    hide EobTokens;
    var c := cs[0].x;
    assert StepTokens(tbl, RunState(0, []), c) == c.head;
  }

  lemma {:induction false} EobFirst(tbl: Table, cs: seq<Event<BlockCode>>)
    requires cs != [] && cs[0].Item? && cs[0].x.eob && |cs[0].x.tail| <= 63
    ensures RunTokens(tbl, RunState(0, []), cs) == cs[0].x.head + RunTokens(tbl, RunState(1, cs[0].x.tail), cs[1..])
  {
    assert EobTokens(tbl, 0, []) == [];
    hide EobTokens;
    var c := cs[0].x;
    assert [] + c.tail == c.tail;
    assert StepTokens(tbl, RunState(0, []), c) == c.head;
  }

  /** What the encoder emits from a block that opens an EOB run joined by j more blocks. */
  lemma {:induction false} RunOpens(tbl: Table, cs: seq<Event<BlockCode>>, j: nat)
    requires cs != [] && cs[0].Item? && cs[0].x.eob
    requires forall i :: 0 <= i < |cs| && cs[i].Item? ==> BlockCodeOk(cs[i].x)
    requires j == RunMore(RunState(1, cs[0].x.tail), cs[1..])
    ensures j < |cs| && 1 + j <= MAX_EOBRUN && forall i :: 0 <= i < j ==> JoinsRun(cs[1..][i])
    ensures RunTokens(tbl, RunState(0, []), cs)
         == cs[0].x.head + (EobTokens(tbl, 1 + j, cs[0].x.tail + Tails(cs[1..][..j])) + RunTokens(tbl, RunState(0, []), cs[1..][j..]))
  {
    EobFirst(tbl, cs);
    RunSplit(tbl, RunState(1, cs[0].x.tail), cs[1..]);
    hide RunTokens, EobTokens, Tails;
  }

  /** The step of ScanDecodes for a block that opens an EOB run joined by j more blocks. */
  lemma {:induction false} EobStep(b: Band, evs: seq<Event<Pair>>, j: nat)
    requires PairsOk(b, evs) && evs != [] && evs[0].Item? && PairOk(b, evs[0].x)
    requires Codes(b, evs)[0].x.eob
    requires j == RunMore(RunState(1, Codes(b, evs)[0].x.tail), Codes(b, evs[1..]))
    requires var es := evs[1..][j..];
      DecodeScan(b, RunTokens(b.tbl, RunState(0, []), Codes(b, es)), 0, Olds(es)) == Decoded(News(b, es), [])
    ensures DecodeScan(b, RunTokens(b.tbl, RunState(0, []), Codes(b, evs)), 0, Olds(evs)) == Decoded(News(b, evs), [])
  {
    var x, cs, cs1 := evs[0].x, Codes(b, evs), Codes(b, evs[1..]);
    var c, none := cs[0].x, RunState(0, []);
    EventTails(b, evs);
    assert cs1[j..] == Codes(b, evs[1..][j..]);
    assert c == CodeOf(b, x.z);
    CodesAreOk(b, evs);
    hide *;
    RunOpens(b.tbl, cs, j);
    var more, later := Tails(cs1[..j]), RunTokens(b.tbl, none, cs1[j..]);
    EobBlockDecodes(b, x, j, more, later);
    RunDecodes(b, j, evs[1..], later);
    ScanItem(b, RunTokens(b.tbl, none, cs), BitTokens(more) + later, 0, j, evs);
  }

  lemma {:induction false} CodesAreOk(b: Band, evs: seq<Event<Pair>>)
    requires PairsOk(b, evs)
    ensures forall i :: 0 <= i < |evs| && Codes(b, evs)[i].Item? ==> BlockCodeOk(Codes(b, evs)[i].x)
  {
    forall i | 0 <= i < |evs| && evs[i].Item? ensures BlockCodeOk(Codes(b, evs)[i].x) {
      assert PairOk(b, evs[i].x);
      CodeOfOk(b, evs[i].x);
      hide BlockCodeOk, CodeOf;
    }
  }

  /** Main result: decoding inverts the encoding of a whole AC scan, first or refining.
      Every block comes out with each coefficient of the band shown down to bit al. */
  lemma {:induction false} ScanDecodes(b: Band, evs: seq<Event<Pair>>)
    requires PairsOk(b, evs)
    ensures DecodeScan(b, RunTokens(b.tbl, RunState(0, []), Codes(b, evs)), 0, Olds(evs)) == Decoded(News(b, evs), [])
    decreases |evs|
  {
    var none, cs := RunState(0, []), Codes(b, evs);
    if evs == [] {
      assert EobTokens(b.tbl, 0, []) == [];
      hide EobTokens;
    } else {
      EventTails(b, evs);
      if evs[0].Restart? {
        RestartStep(b.tbl, cs);
        ScanDecodes(b, evs[1..]);
        ScanRestart(b, RunTokens(b.tbl, none, cs[1..]), evs);
      } else {
        var x := evs[0].x;
        assert PairOk(b, x);
        CodeOfOk(b, x);
        assert cs[0].x == CodeOf(b, x.z);
        if cs[0].x.eob {
          EobFirst(b.tbl, cs);
          var j := RunMore(RunState(1, cs[0].x.tail), cs[1..]);
          ScanDecodes(b, evs[1..][j..]);
          EobStep(b, evs, j);
        } else {
          FullStep(b.tbl, cs);
          ScanDecodes(b, evs[1..]);
          FullBlockDecodes(b, x, RunTokens(b.tbl, none, cs[1..]));
          hide *;
          ScanItem(b, RunTokens(b.tbl, none, cs), RunTokens(b.tbl, none, cs[1..]), 0, 0, evs);
        }
      }
    }
  }

  lemma {:induction false} EventTails(b: Band, evs: seq<Event<Pair>>)
    requires PairsOk(b, evs) && evs != []
    ensures Codes(b, evs)[1..] == Codes(b, evs[1..]) && Olds(evs)[1..] == Olds(evs[1..])
  {
  }

  lemma {:induction false} ScanRestart(b: Band, later: seq<Token>, evs: seq<Event<Pair>>)
    requires PairsOk(b, evs) && evs != [] && evs[0].Restart?
    requires DecodeScan(b, later, 0, Olds(evs[1..])) == Decoded(News(b, evs[1..]), [])
    ensures DecodeScan(b, [Rst(evs[0].num)] + later, 0, Olds(evs)) == Decoded(News(b, evs), [])
  {
    EventTails(b, evs);
    assert ([Rst(evs[0].num)] + later)[1..] == later;
    hide DecodeBlock, Codes, New;
  }

  lemma {:induction false} ScanItem(b: Band, ts: seq<Token>, later: seq<Token>, run: nat, run1: nat, evs: seq<Event<Pair>>)
    requires PairsOk(b, evs) && evs != [] && evs[0].Item? && PairOk(b, evs[0].x)
    requires DecodeBlock(b, ts, run, evs[0].x.d) == BlockDone(later, run1, New(b, evs[0].x))
    requires DecodeScan(b, later, run1, Olds(evs[1..])) == Decoded(News(b, evs[1..]), [])
    ensures DecodeScan(b, ts, run, Olds(evs)) == Decoded(News(b, evs), [])
  {
    EventTails(b, evs);
    hide DecodeBlock, Codes, New;
  }

  /** What New means, coefficient by coefficient. */
  lemma {:induction false} NewShows(b: Band, x: Pair, k: nat)
    requires PairOk(b, x) && k < 64
    ensures New(b, x)[k] == if b.ss <= k <= b.se then AcShown(x.z[k], b.al) else x.d[k]
  {
  }

  // ----- a scan of given blocks and restart interval -----

  function CodesOf(b: Band, zs: seq<seq<int>>): seq<BlockCode>
    requires BandOk(b) && forall i :: 0 <= i < |zs| ==> |zs[i]| == 64
  {
    seq(|zs|, i requires 0 <= i < |zs| => CodeOf(b, zs[i]))
  }

  function PassTokens(b: Band, zs: seq<seq<int>>, interval: nat): seq<Token>
    requires BandOk(b) && forall i :: 0 <= i < |zs| ==> |zs[i]| == 64
  {
    RunTokens(b.tbl, RunState(0, []), WithRestarts(CodesOf(b, zs), interval, interval, 0))
  }

  lemma {:induction false} BlocksWithRestarts(ds: seq<seq<int>>, interval: nat, togo: nat, num: nat)
    requires forall i :: 0 <= i < |ds| ==> |ds[i]| == 64
    ensures forall i :: 0 <= i < |WithRestarts(ds, interval, togo, num)| ==>
      var e := WithRestarts(ds, interval, togo, num)[i]; e.Item? ==> |e.x| == 64
    decreases |ds|, togo == 0
  {
    if ds != [] {
      if interval > 0 && togo == 0 {
        BlocksWithRestarts(ds, interval, interval, (num + 1) % 8);
      } else {
        BlocksWithRestarts(ds[1..], interval, if interval > 0 then togo - 1 else togo, num);
      }
    }
  }

  function DecodePass(b: Band, ts: seq<Token>, ds: seq<seq<int>>, interval: nat): ScanOut
    requires BandOk(b) && forall i :: 0 <= i < |ds| ==> |ds[i]| == 64
  {
    BlocksWithRestarts(ds, interval, interval, 0);
    DecodeScan(b, ts, 0, WithRestarts(ds, interval, interval, 0))
  }

  function Zs(xs: seq<Pair>): seq<seq<int>> {
    seq(|xs|, i requires 0 <= i < |xs| => xs[i].z)
  }

  function Ds(xs: seq<Pair>): seq<seq<int>> {
    seq(|xs|, i requires 0 <= i < |xs| => xs[i].d)
  }

  ghost predicate AllOk(b: Band, xs: seq<Pair>) {
    BandOk(b) && forall i :: 0 <= i < |xs| ==> |xs[i].z| == 64 && |xs[i].d| == 64 && PairOk(b, xs[i])
  }

  /** The blocks of a scan after it. */
  function NewAll(b: Band, xs: seq<Pair>): seq<seq<int>>
    requires forall i :: 0 <= i < |xs| ==> |xs[i].z| == 64 && |xs[i].d| == 64
  {
    seq(|xs|, i requires 0 <= i < |xs| => New(b, xs[i]))
  }

  lemma {:induction false} PairsWithRestarts(b: Band, xs: seq<Pair>, interval: nat, togo: nat, num: nat)
    requires AllOk(b, xs)
    ensures PairsOk(b, WithRestarts(xs, interval, togo, num))
    decreases |xs|, togo == 0
  {
    hide PairOk;
    if xs != [] {
      if interval > 0 && togo == 0 {
        PairsWithRestarts(b, xs, interval, interval, (num + 1) % 8);
      } else {
        PairsWithRestarts(b, xs[1..], interval, if interval > 0 then togo - 1 else togo, num);
      }
    }
  }

  lemma {:induction false} CodesWithRestarts(b: Band, xs: seq<Pair>, interval: nat, togo: nat, num: nat)
    requires AllOk(b, xs) && PairsOk(b, WithRestarts(xs, interval, togo, num))
    ensures Codes(b, WithRestarts(xs, interval, togo, num)) == WithRestarts(CodesOf(b, Zs(xs)), interval, togo, num)
    decreases |xs|, togo == 0
  {
    hide CodeOf, PairOk;
    if xs != [] {
      var evs := WithRestarts(xs, interval, togo, num);
      assert AllOk(b, xs[1..]);
      assert CodesOf(b, Zs(xs)) == [CodeOf(b, xs[0].z)] + CodesOf(b, Zs(xs[1..]));
      if interval > 0 && togo == 0 {
        PairsWithRestarts(b, xs, interval, interval, (num + 1) % 8);
        CodesWithRestarts(b, xs, interval, interval, (num + 1) % 8);
        assert Codes(b, evs) == [Restart(num)] + Codes(b, evs[1..]);
      } else {
        PairsWithRestarts(b, xs[1..], interval, if interval > 0 then togo - 1 else togo, num);
        CodesWithRestarts(b, xs[1..], interval, if interval > 0 then togo - 1 else togo, num);
        assert Codes(b, evs) == [Item(CodeOf(b, xs[0].z))] + Codes(b, evs[1..]);
      }
    }
  }

  lemma {:induction false} NewsWithRestarts(b: Band, xs: seq<Pair>, interval: nat, togo: nat, num: nat)
    requires AllOk(b, xs) && PairsOk(b, WithRestarts(xs, interval, togo, num))
    ensures var evs := WithRestarts(xs, interval, togo, num);
      Olds(evs) == WithRestarts(Ds(xs), interval, togo, num) && News(b, evs) == NewAll(b, xs)
    decreases |xs|, togo == 0
  {
    hide New, PairOk;
    if xs != [] {
      assert PairOk(b, xs[0]) && AllOk(b, xs[1..]);
      assert NewAll(b, xs) == [New(b, xs[0])] + NewAll(b, xs[1..]);
      assert Ds(xs)[1..] == Ds(xs[1..]);
      if interval > 0 && togo == 0 {
        PairsWithRestarts(b, xs, interval, interval, (num + 1) % 8);
        NewsWithRestarts(b, xs, interval, interval, (num + 1) % 8);
      } else {
        PairsWithRestarts(b, xs[1..], interval, if interval > 0 then togo - 1 else togo, num);
        NewsWithRestarts(b, xs[1..], interval, if interval > 0 then togo - 1 else togo, num);
      }
    }
  }

  /** ScanDecodes for a scan of given blocks and restart interval. */
  lemma {:induction false} PassDecodes(b: Band, xs: seq<Pair>, interval: nat)
    requires AllOk(b, xs)
    ensures DecodePass(b, PassTokens(b, Zs(xs), interval), Ds(xs), interval) == Decoded(NewAll(b, xs), [])
  {
    PairsWithRestarts(b, xs, interval, interval, 0);
    CodesWithRestarts(b, xs, interval, interval, 0);
    NewsWithRestarts(b, xs, interval, interval, 0);
    ScanDecodes(b, WithRestarts(xs, interval, interval, 0));
    hide News, New, RunTokens, DecodeScan, PairsOk, PairOk, Codes, CodeOf, WithRestarts;
  }
}
