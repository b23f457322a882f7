// The sequential decoder as the source runs it (jdhuff.c): blocks are filled in place through
// the bit reader, and input position, bit buffer and predictions are committed only when an
// MCU is complete.
module SequentialDecoder {
  import opened BitStrings
  import opened BitPacking
  import opened Coefficients
  import opened HuffmanCodes
  import opened HuffmanDecoding
  import opened DerivedTables
  import opened SequentialScan
  import opened SequentialStream
  import opened SequentialSuspend
  import opened Tokens
  import R = BitReader

  /** The decoder's tables for the DC and AC part of a block. */
  ghost predicate PairOk(dct: DTbl, act: DTbl) {
    DTblOk(dct) && DTblOk(act) && SymbolsUpTo(dct.pub, true, Total(dct.pub.bits))
  }

  lemma {:induction false} DTblIsOk(d: DTbl)
    requires DTblOk(d)
    ensures TblOk(d.pub)
  {
    hide FitsUpTo, Total, LookOk, SequentialOk;
  }

  lemma {:induction false} SmallSymbol(d: DTbl, s: nat)
    requires DTblOk(d) && SymbolsUpTo(d.pub, true, Total(d.pub.bits)) && R.Listed(d.pub, s)
    ensures s <= 15
  {
    hide DTblOk, Total;
  }

  lemma {:induction false} TookTakes(d: DTbl, a: seq<Bit>, b: seq<Bit>, s: nat)
    requires DTblOk(d)
    ensures R.Took(d, a, b, s) ==> TakeSymbol(d.pub, a) == Taken(s, b)
    ensures NextSymbol(d.pub, a) == NeedBits ==> TakeSymbol(d.pub, a) == Short
    ensures R.FewAfter(d, a) ==> var o := TakeSymbol(d.pub, a); o.Taken? ==> |o.rest| < 25
  {
    DTblIsOk(d);
    hide DTblOk, FitsUpTo, LookOk, SequentialOk;
    if NextSymbol(d.pub, a).Found? {
      UsedPositive(d.pub, a);
    }
  }

  lemma {:induction false} UsedPositive(t: HuffTbl, a: seq<Bit>)
    requires TblOk(t) && NextSymbol(t, a).Found?
    ensures NextSymbol(t, a).used > 0
  {
    hide Value, CodeAt, FitsUpTo, Total;
  }

  /** HUFF_DECODE, in terms of what is taken from the stream. */
  method ReadSymbol(rd: R.Reader, d: DTbl) returns (ok: bool, sym: nat)
    requires rd.Valid() && DTblOk(d)
    modifies rd
    ensures rd.Progress(ok) && (ok ==> R.Listed(d.pub, sym) && sym < 256)
    ensures ok && !rd.insufficientData ==> TakeSymbol(d.pub, old(rd.Ahead())) == Taken(sym, rd.Ahead())
    ensures rd.insufficientData && !old(rd.insufficientData) ==> TakeSymbol(d.pub, old(rd.Ahead())) == Short
    ensures !ok ==> var o := TakeSymbol(d.pub, old(rd.Ahead())); o.Taken? ==> |o.rest| < 25
  {
    hide DTblOk, TakeSymbol, NextSymbol, R.Took, R.FewAfter, R.Coming;
    ghost var a := rd.Ahead();
    R.TblShape(d);
    ok, sym := rd.HuffDecode(d);
    TookTakes(d, a, rd.Ahead(), sym);
  }

  /** CHECK_BIT_BUFFER and GET_BITS. */
  method ReadRaw(rd: R.Reader, n: nat) returns (ok: bool, v: nat)
    requires rd.Valid() && n <= 25
    modifies rd
    ensures rd.Progress(ok)
    ensures ok && !rd.insufficientData ==> TakeBits(old(rd.Ahead()), n) == Taken(v, rd.Ahead())
    ensures rd.insufficientData && !old(rd.insufficientData) ==> TakeBits(old(rd.Ahead()), n) == Short
    ensures !ok ==> |old(rd.Ahead())| < 25
  {
    hide Value, R.Coming;
    v := 0;
    ok := rd.CheckBitBuffer(n);
    if ok {
      v := rd.GetBits(n);
    }
  }

  /** The DC difference of a block. */
  method ReadDiff(rd: R.Reader, d: DTbl) returns (ok: bool, s: int)
    requires rd.Valid() && DTblOk(d) && SymbolsUpTo(d.pub, true, Total(d.pub.bits))
    modifies rd
    ensures rd.Progress(ok)
    ensures ok && !rd.insufficientData ==> TakeDiff(d.pub, old(rd.Ahead())) == DiffGot(s, rd.Ahead())
    ensures rd.insufficientData && !old(rd.insufficientData) ==> TakeDiff(d.pub, old(rd.Ahead())) == DiffShort
    ensures !ok ==> var o := TakeDiff(d.pub, old(rd.Ahead())); o.DiffGot? ==> |o.rest| < 25
  {
    hide DTblOk, TakeSymbol, TakeBits, R.Coming, HuffExtend, R.Listed, SymbolsUpTo;
    R.TblShape(d);
    s := 0;
    var sym, r;
    ok, sym := ReadSymbol(rd, d);
    if ok {
      s := sym;
      if sym != 0 {
        SmallSymbol(d, sym);
        ok, r := ReadRaw(rd, sym);
        if ok {
          s := HuffExtend(r, sym);
        }
      }
    }
  }

  /** One round of the AC loop. */
  method ReadRound(rd: R.Reader, d: DTbl, block: array<int>, order: seq<nat>, k0: nat) returns (ok: bool, done: bool, k: nat)
    requires rd.Valid() && DTblOk(d) && Fits(block, order) && k0 <= 63
    modifies rd, block
    ensures rd.Progress(ok)
    ensures !ok ==> View(block, order) == old(View(block, order))
    ensures ok && !done ==> k0 < k <= k0 + 16
    ensures ok && !rd.insufficientData ==>
      match NextRound(d.pub, old(rd.Ahead()), k0)
      case Put(bs, k1, q, v) => !done && k == k1 && rd.Ahead() == bs && View(block, order) == old(View(block, order))[q := v]
      case Skip(bs, k1) => !done && k == k1 && rd.Ahead() == bs && View(block, order) == old(View(block, order))
      case End(bs) => done && rd.Ahead() == bs && View(block, order) == old(View(block, order))
      case Starve => false
    ensures rd.insufficientData && !old(rd.insufficientData) ==> NextRound(d.pub, old(rd.Ahead()), k0) == Starve
    ensures !ok ==> var o := NextRound(d.pub, old(rd.Ahead()), k0); !o.Starve? ==> |o.bs| < 25
  {
    hide DTblOk, TakeSymbol, TakeBits, R.Coming, HuffExtend, R.Listed, View, IsZigzag;
    R.TblShape(d);
    done, k := false, k0;
    var symbol;
    ok, symbol := ReadSymbol(rd, d);
    if !ok {
      return;
    }
    var r, s := symbol / 16, symbol % 16;
    if s != 0 {
      k := k + r;
      var v;
      ok, v := ReadRaw(rd, s);
      if !ok {
        return;
      }
      Store(block, order, k, HuffExtend(v, s));
    } else if r != 15 {
      done := true;
      return;
    } else {
      k := k + 15;
    }
    k := k + 1;
  }

  ghost predicate StoppedAt(t: HuffTbl, a: seq<Bit>, d: seq<int>, n: nat, e: seq<int>)
    requires TblOk(t) && |d| == 64
  {
    match After(t, a, 1, d, n)
    case Going(_, _, x) => x == e
    case Over => false
  }

  lemma {:induction false} RoundDone(t: HuffTbl, a: seq<Bit>, d: seq<int>, n: nat, b: seq<Bit>, k: nat, e: seq<int>)
    requires TblOk(t) && |d| == 64 && After(t, a, 1, d, n) == Going(b, k, e)
    ensures |e| == 64 && StoppedAt(t, a, d, n, e)
    ensures match NextRound(t, b, k)
      case Put(bs, k1, q, v) => After(t, a, 1, d, n + 1) == Going(bs, k1, e[q := v])
      case Skip(bs, k1) => After(t, a, 1, d, n + 1) == Going(bs, k1, e)
      case End(bs) => AcLoop(t, a, 1, d) == AcDone(bs, e)
      case Starve => AcLoop(t, a, 1, d) == AcShort(e)
  {
    hide Shape, Total, FitsUpTo, NextRound, After, AcLoop;
    OneRoundMore(t, a, 1, d, n);
    AfterLoop(t, a, 1, d, n);
    LoopIsRounds(t, b, k, e);
  }

  /** What is left after the round is no more than what is left after all of them. */
  lemma {:induction false} RoundFew(t: HuffTbl, a: seq<Bit>, d: seq<int>, n: nat, b: seq<Bit>, k: nat, e: seq<int>)
    requires TblOk(t) && |d| == |e| == 64 && After(t, a, 1, d, n) == Going(b, k, e)
    requires var o := NextRound(t, b, k); !o.Starve? ==> |o.bs| < 25
    ensures var o := AcLoop(t, a, 1, d); o.AcDone? ==> |o.rest| < 25
  {
    hide Shape, Total, FitsUpTo, NextRound, After, AcLoop;
    AfterLoop(t, a, 1, d, n);
    LoopIsRounds(t, b, k, e);
  }

  lemma {:induction false} NoRounds(t: HuffTbl, a: seq<Bit>, d: seq<int>)
    requires TblOk(t) && |d| == 64
    ensures After(t, a, 1, d, 0) == Going(a, 1, d)
  {
    hide Shape, Total, FitsUpTo;
  }

  lemma {:induction false} PastEnd(t: HuffTbl, b: seq<Bit>, k: nat)
    requires TblOk(t) && k > 63
    ensures NextRound(t, b, k) == End(b)
  {
    hide Shape, Total, FitsUpTo, TakeSymbol;
  }

  /** The AC loop of decode_mcu. */
  method ReadAc(rd: R.Reader, d: DTbl, block: array<int>, order: seq<nat>) returns (ok: bool, ghost n: nat)
    requires rd.Valid() && DTblOk(d) && TblOk(d.pub) && Fits(block, order)
    modifies rd, block
    ensures rd.Progress(ok)
    ensures ok && !rd.insufficientData ==> AcLoop(d.pub, old(rd.Ahead()), 1, old(View(block, order))) == AcDone(rd.Ahead(), View(block, order))
    ensures rd.insufficientData && !old(rd.insufficientData) ==> AcLoop(d.pub, old(rd.Ahead()), 1, old(View(block, order))).AcShort?
    ensures !ok ==> StoppedAt(d.pub, old(rd.Ahead()), old(View(block, order)), n, View(block, order))
    ensures !ok ==> var o := AcLoop(d.pub, old(rd.Ahead()), 1, old(View(block, order))); o.AcDone? ==> |o.rest| < 25
  {
    hide DTblOk, TblOk, R.Coming, View, IsZigzag, NextRound, After, AcLoop, StoppedAt;
    R.TblShape(d);
    ghost var a, d0 := rd.Ahead(), View(block, order);
    n := 0;
    NoRounds(d.pub, a, d0);
    var k := 1;
    while k < 64
      invariant 1 <= k && rd.Valid() && rd.Ending() == old(rd.Ending())
      invariant !rd.insufficientData ==> After(d.pub, a, 1, d0, n) == Going(rd.Ahead(), k, View(block, order))
      invariant rd.insufficientData && !old(rd.insufficientData) ==> AcLoop(d.pub, a, 1, d0).AcShort?
      invariant old(rd.insufficientData) ==> rd.insufficientData
      invariant k <= 79
      decreases 79 - k
    {
      if !rd.insufficientData {
        RoundDone(d.pub, a, d0, n, rd.Ahead(), k, View(block, order));
      }
      var done;
      ghost var b, k0, e := rd.Ahead(), k, View(block, order);
      ok, done, k := ReadRound(rd, d, block, order, k);
      if !ok {
        RoundFew(d.pub, a, d0, n, b, k0, e);
        return;
      }
      if done {
        return;
      }
      n := n + 1;
    }
    if !rd.insufficientData {
      RoundDone(d.pub, a, d0, n, rd.Ahead(), k, View(block, order));
      PastEnd(d.pub, rd.Ahead(), k);
    }
    ok := true;
  }

  /** One block of decode_mcu.  A failed call leaves a block that does no harm. */
  method ReadBlock(rd: R.Reader, dct: DTbl, act: DTbl, block: array<int>, order: seq<nat>, last: int)
    returns (ok: bool, s: int, ghost n: nat)
    requires rd.Valid() && PairOk(dct, act) && TblOk(dct.pub) && TblOk(act.pub) && Fits(block, order)
    modifies rd, block
    ensures rd.Progress(ok)
    ensures ok && !rd.insufficientData ==>
      DecodeBlock(dct.pub, act.pub, old(rd.Ahead()), last, old(View(block, order))) == UnitDone(rd.Ahead(), s, View(block, order))
    ensures rd.insufficientData && !old(rd.insufficientData) ==> DecodeBlock(dct.pub, act.pub, old(rd.Ahead()), last, old(View(block, order))).UnitShort?
    ensures !ok ==>
      View(block, order) == old(View(block, order))
      || HalfWay(dct.pub, act.pub, old(rd.Ahead()), last, old(View(block, order)), View(block, order), n)
    ensures !ok ==>
      var o := DecodeBlock(dct.pub, act.pub, old(rd.Ahead()), last, old(View(block, order))); o.UnitDone? ==> |o.rest| < 25
  {
    hide DTblOk, TblOk, R.Coming, View, IsZigzag, AcLoop, After, TakeDiff, SymbolsUpTo;
    R.TblShape(dct);
    n := 0;
    ok, s := ReadDiff(rd, dct);
    if !ok {
      return;
    }
    s := s + last;
    Store(block, order, 0, s);
    ok, n := ReadAc(rd, act, block, order);
  }

  // ----- MCUs -----

  ghost function SlotOf(r: Ref, order: seq<nat>): (u: Slot)
    requires Fits(r.block, order)
    reads r.block
    ensures |u.d| == 64
  {
    Slot(r.ci, r.dc, r.ac, View(r.block, order))
  }

  ghost function SlotsOf(refs: seq<Ref>, order: seq<nat>): (mcu: seq<Slot>)
    requires forall i :: 0 <= i < |refs| ==> Fits(refs[i].block, order)
    reads set i | 0 <= i < |refs| :: refs[i].block
    ensures |mcu| == |refs| && forall i :: 0 <= i < |refs| ==> mcu[i] == SlotOf(refs[i], order)
  {
    if refs == [] then [] else [SlotOf(refs[0], order)] + SlotsOf(refs[1..], order)
  }

  ghost predicate Apart(refs: seq<Ref>) {
    forall i, j :: 0 <= i < j < |refs| ==> refs[i].block != refs[j].block
  }

  /** The derived tables belong to the tables x. */
  ghost predicate DerivedFor(x: Tables, dcs: seq<DTbl>, acs: seq<DTbl>) {
    && |dcs| == |x.dc| && |acs| == |x.ac|
    && (forall i :: 0 <= i < |dcs| ==> dcs[i].pub == x.dc[i] && DTblOk(dcs[i]) && SymbolsUpTo(x.dc[i], true, Total(x.dc[i].bits)))
    && (forall i :: 0 <= i < |acs| ==> acs[i].pub == x.ac[i] && DTblOk(acs[i]))
  }

  lemma {:induction false} DerivedReadable(x: Tables, dcs: seq<DTbl>, acs: seq<DTbl>)
    requires DerivedFor(x, dcs, acs)
    ensures Readable(x)
  {
    hide TblOk, DTblOk;
    forall i: nat | i < |x.dc| ensures TblOk(x.dc[i]) {
      DTblIsOk(dcs[i]);
    }
    forall i: nat | i < |x.ac| ensures TblOk(x.ac[i]) {
      DTblIsOk(acs[i]);
    }
  }

  /** Blocks of which the first hold vals and the others what the slots say. */
  ghost predicate Filled(refs: seq<Ref>, order: seq<nat>, slots: seq<Slot>, vals: seq<seq<int>>)
    reads set i | 0 <= i < |refs| :: refs[i].block
  {
    && (forall i :: 0 <= i < |refs| ==> Fits(refs[i].block, order)) && |slots| == |refs| && |vals| <= |refs|
    && (forall i :: 0 <= i < |vals| ==> View(refs[i].block, order) == vals[i])
    && (forall i :: |vals| <= i < |refs| ==> View(refs[i].block, order) == slots[i].d)
  }

  /** What a call that ran out of input leaves behind: blocks from which any later call, with
      more bits, gets what it would have got from the blocks as they were. */
  ghost predicate Retryable(x: Tables, a: seq<Bit>, pred: seq<int>, slots: seq<Slot>, now: seq<Slot>)
    requires Readable(x) && SlotsOk(x, |pred|, slots)
  {
    SlotsOk(x, |pred|, now) && forall more: seq<Bit> :: DecodeMcu(x, a + more, pred, now) == DecodeMcu(x, a + more, pred, slots)
  }

  /** If the MCU can be decoded at all, fewer than 25 bits follow it. */
  ghost predicate FewLeft(x: Tables, a: seq<Bit>, pred: seq<int>, slots: seq<Slot>)
    requires Readable(x) && SlotsOk(x, |pred|, slots)
  {
    match DecodeMcu(x, a, pred, slots)
    case McuDone(rest, _, _) => |rest| < 25
    case McuShort(_) => true
  }

  lemma {:induction false} HarmlessBlock(x: Tables, b: seq<Bit>, p: seq<int>, u: Slot, e: seq<int>, n: nat)
    requires Readable(x) && SlotOk(x, |p|, u) && |e| == 64 && TblOk(x.dc[u.dc]) && TblOk(x.ac[u.ac])
    requires e == u.d || HalfWay(x.dc[u.dc], x.ac[u.ac], b, p[u.ci], u.d, e, n)
    ensures Harmless(x, b, p, u, e)
  {
    hide Readable, DecodeBlock, HalfWay, TblOk;
    if e == u.d {
      assert u.(d := e) == u;
    } else {
      forall more: seq<Bit> ensures BlockOf(x, b + more, p, u.(d := e)) == BlockOf(x, b + more, p, u) {
        PartAgain(x.dc[u.dc], x.ac[u.ac], b, p[u.ci], u.d, e, n, more);
      }
    }
  }

  /** A failed call, wherever it stopped, can be retried. */
  lemma {:induction false} StoppedRetryable(x: Tables, a: seq<Bit>, pred: seq<int>, slots: seq<Slot>, vals: seq<seq<int>>, b: seq<Bit>, p: seq<int>, e: seq<int>, n: nat)
    requires Readable(x) && SlotsOk(x, |pred|, slots) && Reached(x, a, pred, slots, vals, b, p) && |vals| < |slots| && |e| == 64
    requires |p| == |pred| && SlotOk(x, |p|, slots[|vals|])
    requires var u := slots[|vals|];
      && TblOk(x.dc[u.dc]) && TblOk(x.ac[u.ac])
      && (e == u.d || HalfWay(x.dc[u.dc], x.ac[u.ac], b, p[u.ci], u.d, e, n))
    ensures Retryable(x, a, pred, slots, Touched(slots, vals, e))
  {
    hide Readable, HalfWay, TblOk, Reached, DecodeMcu, SlotsOk, Harmless;
    ReachedLength(x, a, pred, slots, vals, b, p);
    TouchedOk(x, |pred|, slots, vals, e);
    HarmlessBlock(x, b, p, slots[|vals|], e, n);
    forall more: seq<Bit> ensures DecodeMcu(x, a + more, pred, Touched(slots, vals, e)) == DecodeMcu(x, a + more, pred, slots) {
      McuAgain(x, a, pred, slots, vals, b, p, e, more);
    }
  }

  lemma {:induction false} NowTouched(refs: seq<Ref>, order: seq<nat>, slots: seq<Slot>, vals: seq<seq<int>>, e: seq<int>)
    requires forall i :: 0 <= i < |refs| ==> Fits(refs[i].block, order)
    requires |slots| == |refs| && |vals| < |refs|
    requires forall i :: 0 <= i < |refs| ==> slots[i] == Slot(refs[i].ci, refs[i].dc, refs[i].ac, slots[i].d)
    requires forall i :: 0 <= i < |refs| ==>
      View(refs[i].block, order) == if i < |vals| then vals[i] else if i == |vals| then e else slots[i].d
    ensures SlotsOf(refs, order) == Touched(slots, vals, e)
  {
    hide View, IsZigzag;
    var l, r := SlotsOf(refs, order), Touched(slots, vals, e);
    forall i | 0 <= i < |refs| ensures l[i] == r[i] {
      assert l[i] == SlotOf(refs[i], order);
    }
  }

  /** The tables and the place of the next block. */
  lemma {:induction false} NextPlace(x: Tables, dcs: seq<DTbl>, acs: seq<DTbl>, comps: nat, u: Slot)
    requires DerivedFor(x, dcs, acs) && SlotOk(x, comps, u)
    ensures |dcs| == |x.dc| && |acs| == |x.ac|
    ensures PairOk(dcs[u.dc], acs[u.ac]) && TblOk(x.dc[u.dc]) && TblOk(x.ac[u.ac])
    ensures dcs[u.dc].pub == x.dc[u.dc] && acs[u.ac].pub == x.ac[u.ac]
  {
    DTblIsOk(dcs[u.dc]);
    DTblIsOk(acs[u.ac]);
    hide DTblOk, TblOk;
  }

  /** The next block of an MCU of which the first blocks are done. */
  method ReadNext(rd: R.Reader, ghost x: Tables, dcs: seq<DTbl>, acs: seq<DTbl>, r: Ref, order: seq<nat>, state0: seq<int>,
                  ghost a: seq<Bit>, ghost pred: seq<int>, ghost slots: seq<Slot>, ghost vals0: seq<seq<int>>)
    returns (ok: bool, state: seq<int>, ghost vals: seq<seq<int>>, ghost n: nat)
    requires rd.Valid() && DerivedFor(x, dcs, acs) && Readable(x) && Fits(r.block, order) && |state0| == |pred|
    requires SlotsOk(x, |pred|, slots) && |vals0| < |slots| && SlotOk(x, |pred|, slots[|vals0|])
    requires slots[|vals0|] == SlotOf(r, order)
    requires !rd.insufficientData ==> Reached(x, a, pred, slots, vals0, rd.Ahead(), state0)
    modifies rd, r.block
    ensures rd.Progress(ok) && |state| == |pred|
    ensures ok ==> |vals| == |vals0| + 1 && vals == vals0 + [View(r.block, order)]
    ensures ok && !rd.insufficientData ==> Reached(x, a, pred, slots, vals, rd.Ahead(), state)
    ensures rd.insufficientData && !old(rd.insufficientData) ==> DecodeMcu(x, a, pred, slots).McuShort?
    ensures !ok ==> Retryable(x, a, pred, slots, Touched(slots, vals0, View(r.block, order))) && FewLeft(x, a, pred, slots)
  {
    hide Readable, TblOk, DTblOk, PairOk, DerivedFor, SlotsOk, Reached, Retryable, HalfWay, DecodeBlock, DecodeMcu, View, IsZigzag, R.Coming;
    ghost var u, b := slots[|vals0|], rd.Ahead();
    NextPlace(x, dcs, acs, |pred|, u);
    if !rd.insufficientData {
      ReachedNext(x, a, pred, slots, vals0, b, state0);
    }
    state, vals := state0, vals0;
    var s;
    ok, s, n := ReadBlock(rd, dcs[r.dc], acs[r.ac], r.block, order, state0[r.ci]);
    if !ok {
      StoppedRetryable(x, a, pred, slots, vals0, b, state0, View(r.block, order), n);
      ReachedFew(x, a, pred, slots, vals0, b, state0, R.MIN_GET_BITS);
      return;
    }
    state := state0[r.ci := s];
    vals := vals0 + [View(r.block, order)];
  }

  lemma {:induction false} SlotsFit(x: Tables, comps: nat, refs: seq<Ref>, order: seq<nat>)
    requires RefsFit(x, comps, refs, order)
    ensures SlotsOk(x, comps, SlotsOf(refs, order))
  {
    hide View, IsZigzag;
    forall i | 0 <= i < |refs| ensures SlotOk(x, comps, SlotsOf(refs, order)[i]) {
      assert SlotsOf(refs, order)[i] == SlotOf(refs[i], order);
    }
  }

  lemma {:induction false} NothingFilled(refs: seq<Ref>, order: seq<nat>)
    requires forall i :: 0 <= i < |refs| ==> Fits(refs[i].block, order)
    ensures Filled(refs, order, SlotsOf(refs, order), [])
  {
    hide View, IsZigzag;
  }

  lemma {:induction false} FilledSlot(refs: seq<Ref>, order: seq<nat>, slots: seq<Slot>, vals: seq<seq<int>>, i: nat)
    requires Filled(refs, order, slots, vals) && |vals| <= i < |refs|
    requires slots[i] == Slot(refs[i].ci, refs[i].dc, refs[i].ac, slots[i].d)
    ensures slots[i] == SlotOf(refs[i], order)
  {
    hide View, IsZigzag;
  }

  lemma {:induction false} FilledAll(refs: seq<Ref>, order: seq<nat>, slots: seq<Slot>, vals: seq<seq<int>>)
    requires Filled(refs, order, slots, vals) && |vals| == |refs|
    ensures |SlotsOf(refs, order)| == |refs| && forall i :: 0 <= i < |refs| ==> SlotsOf(refs, order)[i].d == vals[i]
  {
    hide View, IsZigzag;
    forall i | 0 <= i < |refs| ensures SlotsOf(refs, order)[i].d == vals[i] {
      assert SlotsOf(refs, order)[i] == SlotOf(refs[i], order);
    }
  }

  function Values(slots: seq<Slot>): (vs: seq<seq<int>>)
    ensures |vs| == |slots|
  {
    seq(|slots|, i requires 0 <= i < |slots| => slots[i].d)
  }

  /** What the blocks hold. */
  ghost function Blocks(refs: seq<Ref>, order: seq<nat>): (vs: seq<seq<int>>)
    requires forall i :: 0 <= i < |refs| ==> Fits(refs[i].block, order)
    reads set i | 0 <= i < |refs| :: refs[i].block
    ensures |vs| == |refs|
  {
    Values(SlotsOf(refs, order))
  }

  /** The blocks of one MCU in turn. */
  method ReadMcu(rd: R.Reader, ghost x: Tables, dcs: seq<DTbl>, acs: seq<DTbl>, refs: seq<Ref>, order: seq<nat>, pred: seq<int>)
    returns (ok: bool, state: seq<int>)
    requires rd.Valid() && !rd.insufficientData && DerivedFor(x, dcs, acs) && Readable(x) && RefsFit(x, |pred|, refs, order) && Apart(refs)
    requires SlotsOk(x, |pred|, SlotsOf(refs, order))
    modifies rd, set i | 0 <= i < |refs| :: refs[i].block
    ensures rd.Progress(ok) && |state| == |pred|
    ensures ok && !rd.insufficientData ==>
      DecodeMcu(x, old(rd.Ahead()), pred, old(SlotsOf(refs, order))) == McuDone(rd.Ahead(), state, Blocks(refs, order))
    ensures rd.insufficientData ==> DecodeMcu(x, old(rd.Ahead()), pred, old(SlotsOf(refs, order))).McuShort?
    ensures !ok ==> Retryable(x, old(rd.Ahead()), pred, old(SlotsOf(refs, order)), SlotsOf(refs, order))
    ensures !ok ==> FewLeft(x, old(rd.Ahead()), pred, old(SlotsOf(refs, order)))
  {
    hide Readable, DTblOk, DerivedFor, Reached, Retryable, FewLeft, DecodeMcu, View, IsZigzag, R.Coming, SlotsOf, SlotsOk;
    ghost var a, slots := rd.Ahead(), SlotsOf(refs, order);
    ghost var vals: seq<seq<int>>, n := [], 0;
    NothingFilled(refs, order);
    NothingReached(x, a, pred, slots);
    state := pred;
    ok := true;
    var blkn := 0;
    while blkn < |refs|
      invariant 0 <= blkn == |vals| <= |refs| && rd.Valid() && rd.Ending() == old(rd.Ending()) && |state| == |pred|
      invariant Filled(refs, order, slots, vals)
      invariant !rd.insufficientData ==> Reached(x, a, pred, slots, vals, rd.Ahead(), state)
      invariant rd.insufficientData ==> DecodeMcu(x, a, pred, slots).McuShort?
    {
      SlotAt(x, |pred|, refs, slots, blkn);
      FilledSlot(refs, order, slots, vals, blkn);
      ghost var vals0 := vals;
      ok, state, vals, n := ReadNext(rd, x, dcs, acs, refs[blkn], order, state, a, pred, slots, vals);
      if !ok {
        NowTouched(refs, order, slots, vals0, View(refs[blkn].block, order));
        return;
      }
      blkn := blkn + 1;
    }
    if !rd.insufficientData {
      ReachedAll(x, a, pred, slots, vals, rd.Ahead(), state);
      FilledAll(refs, order, slots, vals);
      assert Blocks(refs, order) == vals;
    }
    ok := true;
  }

  lemma {:induction false} NothingReached(x: Tables, a: seq<Bit>, pred: seq<int>, slots: seq<Slot>)
    requires Readable(x) && SlotsOk(x, |pred|, slots)
    ensures Reached(x, a, pred, slots, [], a, pred)
  {
    hide Readable;
  }

  lemma {:induction false} SlotAt(x: Tables, comps: nat, refs: seq<Ref>, slots: seq<Slot>, i: nat)
    requires SlotsOk(x, comps, slots) && i < |slots|
    ensures SlotOk(x, comps, slots[i])
  {
  }

  // ----- the decoder object -----

  /** How a call ends; after an unexpected marker the source resynchronises, which is not
      part of this model. */
  datatype Verdict = Done | Suspended | Resync

  class Decoder {
    ghost const tables: Tables
    const dcs: seq<DTbl>
    const acs: seq<DTbl>
    const comps: nat
    const restartInterval: nat
    var input: seq<Byte>
    var getBuffer: nat
    var bitsLeft: nat
    var unreadMarker: Byte
    var insufficientData: bool
    var lastDcVal: seq<int>
    var restartsToGo: nat
    var nextRestartNum: nat

    constructor (ghost x: Tables, dts: seq<DTbl>, ats: seq<DTbl>, n: nat, interval: nat, inp: seq<Byte>)
      requires DerivedFor(x, dts, ats)
      ensures tables == x && comps == n && restartInterval == interval && Valid()
      ensures StreamNow() == Open(inp) && lastDcVal == NoPred(n) && !insufficientData
      ensures restartsToGo == interval && nextRestartNum == 0
    {
      tables, dcs, acs, comps, restartInterval := x, dts, ats, n, interval;
      input, getBuffer, bitsLeft, unreadMarker, insufficientData := inp, 0, 0, 0, false;
      lastDcVal := NoPred(n);
      restartsToGo, nextRestartNum := interval, 0;
      new;
      DerivedReadable(x, dts, ats);
      NothingHeld(inp);
    }

    ghost predicate Valid()
      reads this
    {
      && DerivedFor(tables, dcs, acs) && Readable(tables) && |lastDcVal| == comps
      && getBuffer < R.WORD && bitsLeft <= 32 && (insufficientData ==> unreadMarker != 0)
      && nextRestartNum < 8
    }

    /** The rest of the segment, in the buffer and in the input. */
    ghost function StreamNow(): Stream
      reads this`input, this`getBuffer, this`bitsLeft, this`unreadMarker
    {
      Stream(R.Coming(getBuffer, bitsLeft, unreadMarker, input),
             if unreadMarker != 0 then unreadMarker else Marker(input),
             if unreadMarker != 0 then input else AfterMarker(input))
    }

    /** decode_mcu after the restart check, with data left: working state in, blocks, working
        state out; a call that runs out of input commits nothing. */
    method DecodeBlocks(refs: seq<Ref>, order: seq<nat>) returns (verdict: Verdict)
      requires Valid() && !insufficientData && RefsFit(tables, comps, refs, order) && Apart(refs)
      requires SlotsOk(tables, comps, SlotsOf(refs, order))
      modifies this`input, this`getBuffer, this`bitsLeft, this`unreadMarker, this`insufficientData, this`lastDcVal
      modifies set i | 0 <= i < |refs| :: refs[i].block
      ensures Valid() && verdict != Resync
      ensures verdict == Done && !insufficientData ==>
        && DecodeMcu(tables, old(StreamNow()).bits, old(lastDcVal), old(SlotsOf(refs, order)))
           == McuDone(StreamNow().bits, lastDcVal, Blocks(refs, order))
        && StreamNow() == old(StreamNow()).(bits := StreamNow().bits)
      ensures insufficientData ==> verdict == Done
      ensures insufficientData ==>
        DecodeMcu(tables, old(StreamNow()).bits, old(lastDcVal), old(SlotsOf(refs, order))).McuShort?
      ensures verdict == Suspended ==>
        && unchanged(this) && unreadMarker == 0 && Marker(input) == 0
        && Retryable(tables, StreamNow().bits, lastDcVal, old(SlotsOf(refs, order)), SlotsOf(refs, order))
        && FewLeft(tables, StreamNow().bits, lastDcVal, old(SlotsOf(refs, order)))
    {
      hide Readable, DerivedFor, Retryable, FewLeft, DecodeMcu, View, IsZigzag, SlotsOf, SlotsOk, Blocks, R.Coming;
      var rd := new R.Reader(input, getBuffer, bitsLeft, unreadMarker, insufficientData);
      var ok, state := ReadMcu(rd, tables, dcs, acs, refs, order, lastDcVal);
      if !ok {
        return Suspended;
      }
      input, getBuffer, bitsLeft := rd.input, rd.getBuffer, rd.bitsLeft;
      unreadMarker, insufficientData := rd.unreadMarker, rd.insufficientData;
      lastDcVal := state;
      verdict := Done;
    }

    /** next_marker: data bytes before a marker are thrown away. */
    method FindMarker() returns (found: bool)
      requires unreadMarker == 0
      modifies this`input, this`unreadMarker
      ensures found <==> old(Marker(input)) != 0
      ensures found ==> unreadMarker == old(Marker(input)) && input == old(AfterMarker(input))
      ensures !found ==> unreadMarker == 0 && Marker(input) == 0
    {
      while true
        invariant unreadMarker == 0 && Marker(input) == old(Marker(input)) && AfterMarker(input) == old(AfterMarker(input))
        decreases |input|
      {
        var r := R.ReadByte(input);
        match r
        case Unknown =>
          return false;
        case Mark(code, rest) =>
          unreadMarker, input := code, rest;
          return true;
        case Datum(_, rest) =>
          input := rest;
      }
    }

    /** process_restart. */
    method ProcessRestart() returns (verdict: Verdict)
      requires Valid()
      modifies this`input, this`bitsLeft, this`unreadMarker, this`insufficientData, this`lastDcVal, this`restartsToGo, this`nextRestartNum
      ensures Valid()
      ensures verdict == Suspended <==> old(StreamNow()).ending == 0
      ensures verdict == Done <==> old(StreamNow()).ending == 0xD0 + old(nextRestartNum)
      ensures verdict == Suspended ==> StreamNow().ending == 0 && restartsToGo == old(restartsToGo) && nextRestartNum == old(nextRestartNum)
      ensures verdict == Done ==>
        && StreamNow() == Open(old(StreamNow()).after) && lastDcVal == NoPred(comps) && !insufficientData
        && restartsToGo == restartInterval && nextRestartNum == (old(nextRestartNum) + 1) % 8
    {
      hide Readable, DerivedFor, Marker, AfterMarker, R.Coming;
      bitsLeft := 0;
      if unreadMarker == 0 {
        var found := FindMarker();
        if !found {
          return Suspended;
        }
      }
      if unreadMarker != 0xD0 + nextRestartNum {
        return Resync;
      }
      unreadMarker := 0;
      nextRestartNum := (nextRestartNum + 1) % 8;
      lastDcVal := NoPred(comps);
      restartsToGo := restartInterval;
      insufficientData := false;
      BufferEmpty(getBuffer, input);
      verdict := Done;
    }

    predicate Due()
      reads this
    {
      restartInterval > 0 && restartsToGo == 0
    }

    /** The segment the next MCU is read from. */
    ghost function Segment(): Stream
      reads this
    {
      if Due() then Open(StreamNow().after) else StreamNow()
    }

    /** decode_mcu after the restart check: the blocks, then the restart counter. */
    method DecodePresent(refs: seq<Ref>, order: seq<nat>) returns (verdict: Verdict)
      requires Valid() && !Due() && RefsFit(tables, comps, refs, order) && Apart(refs)
      requires SlotsOk(tables, comps, SlotsOf(refs, order))
      modifies this, set i | 0 <= i < |refs| :: refs[i].block
      ensures Valid() && verdict != Resync && nextRestartNum == old(nextRestartNum)
      ensures old(insufficientData) ==> verdict == Done && insufficientData && SlotsOf(refs, order) == old(SlotsOf(refs, order))
      ensures verdict == Done && !insufficientData ==>
        && DecodeMcu(tables, old(StreamNow()).bits, old(lastDcVal), old(SlotsOf(refs, order)))
           == McuDone(StreamNow().bits, lastDcVal, Blocks(refs, order))
        && StreamNow() == old(StreamNow()).(bits := StreamNow().bits)
        && restartsToGo == if restartInterval > 0 then old(restartsToGo) - 1 else old(restartsToGo)
      ensures insufficientData && !old(insufficientData) ==>
        verdict == Done && DecodeMcu(tables, old(StreamNow()).bits, old(lastDcVal), old(SlotsOf(refs, order))).McuShort?
      ensures verdict == Suspended ==>
        && StreamNow() == old(StreamNow()) && StreamNow().ending == 0 && lastDcVal == old(lastDcVal) && !insufficientData && !Due()
        && Retryable(tables, StreamNow().bits, lastDcVal, old(SlotsOf(refs, order)), SlotsOf(refs, order))
        && FewLeft(tables, StreamNow().bits, lastDcVal, old(SlotsOf(refs, order)))
    {
      hide Readable, DerivedFor, Retryable, FewLeft, DecodeMcu, View, IsZigzag, SlotsOf, SlotsOk, Blocks, R.Coming, Marker, AfterMarker;
      if !insufficientData {
        verdict := DecodeBlocks(refs, order);
        if verdict != Done {
          return;
        }
      }
      if restartInterval > 0 {
        restartsToGo := restartsToGo - 1;
      }
      verdict := Done;
    }

    /** decode_mcu.  Once zero bits had to be invented, the rest of the segment's blocks stay
        as they are. */
    method DecodeNext(refs: seq<Ref>, order: seq<nat>) returns (verdict: Verdict)
      requires Valid() && RefsFit(tables, comps, refs, order) && Apart(refs)
      requires SlotsOk(tables, comps, SlotsOf(refs, order))
      modifies this, set i | 0 <= i < |refs| :: refs[i].block
      ensures Valid()
      ensures var due, s, slots := old(Due()), old(Segment()), old(SlotsOf(refs, order));
        var pred := if due then NoPred(comps) else old(lastDcVal);
        if due && old(StreamNow()).ending != 0xD0 + old(nextRestartNum) then
          verdict == (if old(StreamNow()).ending == 0 then Suspended else Resync) && SlotsOf(refs, order) == slots
        else if !due && old(insufficientData) then
          verdict == Done && insufficientData && SlotsOf(refs, order) == slots
        else
          && (verdict == Done && !insufficientData ==>
            && DecodeMcu(tables, s.bits, pred, slots) == McuDone(StreamNow().bits, lastDcVal, Blocks(refs, order))
            && StreamNow() == s.(bits := StreamNow().bits)
            && restartsToGo == TogoAfter(restartInterval, old(restartsToGo))
            && nextRestartNum == if due then (old(nextRestartNum) + 1) % 8 else old(nextRestartNum))
          && (insufficientData ==> verdict == Done && DecodeMcu(tables, s.bits, pred, slots).McuShort?)
          && (verdict == Suspended ==>
            && StreamNow() == s && s.ending == 0 && lastDcVal == pred && !insufficientData && !Due()
            && Retryable(tables, s.bits, pred, slots, SlotsOf(refs, order)) && FewLeft(tables, s.bits, pred, slots))
          && verdict != Resync
    {
      hide Readable, DerivedFor, Retryable, FewLeft, DecodeMcu, View, IsZigzag, SlotsOf, SlotsOk, Blocks, R.Coming, Open, NoPred;
      if restartInterval > 0 {
        if restartsToGo == 0 {
          verdict := ProcessRestart();
          if verdict != Done {
            return;
          }
        }
      }
      verdict := DecodePresent(refs, order);
    }
  }

  lemma {:induction false} BufferEmpty(gb: nat, input: seq<Byte>)
    ensures Stream(R.Coming(gb, 0, 0, input), Marker(input), AfterMarker(input)) == Open(input)
  {
    hide ToBits, Data, Marker, AfterMarker;
    R.HeldNothing(gb);
    assert [] + ToBits(Data(input)) == ToBits(Data(input));
  }

  lemma {:induction false} NothingHeld(inp: seq<Byte>)
    ensures R.Coming(0, 0, 0, inp) == ToBits(Data(inp))
  {
    hide ToBits, Data;
    R.HeldNothing(0);
    assert [] + ToBits(Data(inp)) == ToBits(Data(inp));
  }
}
