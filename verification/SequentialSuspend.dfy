// Suspension of the sequential decoder: what a failed MCU call leaves in the blocks does no
// harm, since the next call writes the same coefficients again.
module SequentialSuspend {
  import opened BitStrings
  import opened Coefficients
  import opened HuffmanCodes
  import opened HuffmanDecoding
  import opened SequentialScan
  import R = BitReader

  // ----- more bits change nothing that was read -----

  lemma {:induction false} SymbolMore(t: HuffTbl, bs: seq<Bit>, more: seq<Bit>)
    requires Shape(t) && Total(t.bits) <= 256 && FitsUpTo(t.bits, 16) && TakeSymbol(t, bs).Taken?
    ensures TakeSymbol(t, bs + more) == TakeSymbol(t, bs).(rest := TakeSymbol(t, bs).rest + more)
  {
    hide Total, Shape, FitsUpTo, NextSymbol;
    R.NextMonotone(t, bs, more);
    var used := NextSymbol(t, bs).used;
    assert (bs + more)[used..] == bs[used..] + more;
  }

  lemma {:induction false} BitsMore(bs: seq<Bit>, n: nat, more: seq<Bit>)
    requires TakeBits(bs, n).Taken?
    ensures TakeBits(bs + more, n) == TakeBits(bs, n).(rest := TakeBits(bs, n).rest + more)
  {
    hide Value;
    assert n <= |bs|;
    assert (bs + more)[..n] == bs[..n] && (bs + more)[n..] == bs[n..] + more;
  }

  lemma {:induction false} DiffMore(t: HuffTbl, bs: seq<Bit>, more: seq<Bit>)
    requires Shape(t) && Total(t.bits) <= 256 && FitsUpTo(t.bits, 16) && TakeDiff(t, bs).DiffGot?
    ensures TakeDiff(t, bs + more) == TakeDiff(t, bs).(rest := TakeDiff(t, bs).rest + more)
  {
    hide Total, Shape, FitsUpTo, TakeSymbol, HuffExtend;
    SymbolMore(t, bs, more);
    var r := TakeSymbol(t, bs);
    if r.v != 0 {
      BitsMore(r.rest, r.v, more);
    }
  }

  // ----- rounds of the AC loop -----

  /** One round of the AC loop: a coefficient to be stored, a ZRL, the end, or too few bits.
      It does not depend on the block. */
  datatype Round = Put(bs: seq<Bit>, k: nat, q: nat, v: int) | Skip(bs: seq<Bit>, k: nat) | End(bs: seq<Bit>) | Starve

  ghost function NextRound(t: HuffTbl, bs: seq<Bit>, k: nat): (o: Round)
    requires Shape(t) && Total(t.bits) <= 256
    ensures o.Put? ==> |o.bs| < |bs| && o.q < 64
    ensures o.Skip? ==> |o.bs| < |bs|
  {
    if k > 63 then End(bs)
    else match TakeSymbol(t, bs)
      case Short => Starve
      case Taken(s, bs1) =>
        var r, n := s / 16, s % 16;
        if n != 0 then
          match TakeBits(bs1, n)
          case Short => Starve
          case Taken(v, bs2) => Put(bs2, k + r + 1, Clamp(k + r), HuffExtend(v, n))
        else if r != 15 then End(bs1)
        else Skip(bs1, k + 16)
  }

  lemma {:induction false} LoopIsRounds(t: HuffTbl, bs: seq<Bit>, k: nat, d: seq<int>)
    requires Shape(t) && Total(t.bits) <= 256 && |d| == 64
    ensures AcLoop(t, bs, k, d) ==
      match NextRound(t, bs, k)
      case Put(bs1, k1, q, v) => AcLoop(t, bs1, k1, d[q := v])
      case Skip(bs1, k1) => AcLoop(t, bs1, k1, d)
      case End(bs1) => AcDone(bs1, d)
      case Starve => AcShort(d)
  {
    hide Total, Shape, TakeSymbol, TakeBits, HuffExtend;
  }

  lemma {:induction false} RoundMore(t: HuffTbl, bs: seq<Bit>, k: nat, more: seq<Bit>)
    requires Shape(t) && Total(t.bits) <= 256 && FitsUpTo(t.bits, 16) && !NextRound(t, bs, k).Starve?
    ensures var o := NextRound(t, bs, k); NextRound(t, bs + more, k) == o.(bs := o.bs + more)
  {
    hide Total, Shape, TakeSymbol, TakeBits, HuffExtend, FitsUpTo;
    if k <= 63 {
      SymbolMore(t, bs, more);
      var s, bs1 := TakeSymbol(t, bs).v, TakeSymbol(t, bs).rest;
      if s % 16 != 0 {
        BitsMore(bs1, s % 16, more);
      }
    }
  }

  /** The loop carried n rounds on, unless it ends before. */
  datatype State = Going(bs: seq<Bit>, k: nat, d: seq<int>) | Over

  ghost function After(t: HuffTbl, bs: seq<Bit>, k: nat, d: seq<int>, n: nat): (o: State)
    requires Shape(t) && Total(t.bits) <= 256 && |d| == 64
    ensures o.Going? ==> |o.d| == 64
    decreases n
  {
    if n == 0 then Going(bs, k, d)
    else match NextRound(t, bs, k)
      case Put(bs1, k1, q, v) => After(t, bs1, k1, d[q := v], n - 1)
      case Skip(bs1, k1) => After(t, bs1, k1, d, n - 1)
      case End(_) => Over
      case Starve => Over
  }

  lemma {:induction false} OneRoundMore(t: HuffTbl, bs: seq<Bit>, k: nat, d: seq<int>, n: nat)
    requires Shape(t) && Total(t.bits) <= 256 && |d| == 64 && After(t, bs, k, d, n).Going?
    ensures var o := After(t, bs, k, d, n);
      After(t, bs, k, d, n + 1) ==
      match NextRound(t, o.bs, o.k)
      case Put(bs1, k1, q, v) => Going(bs1, k1, o.d[q := v])
      case Skip(bs1, k1) => Going(bs1, k1, o.d)
      case End(_) => Over
      case Starve => Over
    decreases n
  {
    hide NextRound, Shape, Total;
    if n > 0 {
      var r := NextRound(t, bs, k);
      OneRoundMore(t, r.bs, r.k, if r.Put? then d[r.q := r.v] else d, n - 1);
    } else {
      var r := NextRound(t, bs, k);
      if r.Put? {
        assert After(t, r.bs, r.k, d[r.q := r.v], 0) == Going(r.bs, r.k, d[r.q := r.v]);
      } else if r.Skip? {
        assert After(t, r.bs, r.k, d, 0) == Going(r.bs, r.k, d);
      }
    }
  }

  lemma {:induction false} AfterLoop(t: HuffTbl, bs: seq<Bit>, k: nat, d: seq<int>, n: nat)
    requires Shape(t) && Total(t.bits) <= 256 && |d| == 64 && After(t, bs, k, d, n).Going?
    ensures var o := After(t, bs, k, d, n); AcLoop(t, bs, k, d) == AcLoop(t, o.bs, o.k, o.d)
    decreases n
  {
    hide NextRound, AcLoop, Shape, Total;
    if n > 0 {
      var r := NextRound(t, bs, k);
      LoopIsRounds(t, bs, k, d);
      AfterLoop(t, r.bs, r.k, if r.Put? then d[r.q := r.v] else d, n - 1);
    }
  }

  // ----- writing again what was written -----

  /** Each position of d2 holds what it held at first or what it is to hold at last. */
  ghost predicate Between(d: seq<int>, e: seq<int>, d2: seq<int>) {
    |d| == |e| == |d2| == 64 && forall p :: 0 <= p < 64 ==> d2[p] == d[p] || d2[p] == e[p]
  }

  lemma {:induction false} BetweenPut(d: seq<int>, e: seq<int>, d2: seq<int>, q: nat, v: int)
    requires Between(d, e, d2) && q < 64
    ensures Between(d[q := v], e, d2[q := v])
  {
  }

  lemma {:induction false} BetweenSame(d: seq<int>, d2: seq<int>)
    requires Between(d, d, d2)
    ensures d2 == d
  {
  }

  /** n rounds from a block already partly written, and with more bits behind. */
  lemma {:induction false} AfterAgain(t: HuffTbl, bs: seq<Bit>, k: nat, d: seq<int>, n: nat, d2: seq<int>, more: seq<Bit>)
    requires Shape(t) && Total(t.bits) <= 256 && FitsUpTo(t.bits, 16) && |d| == |d2| == 64 && After(t, bs, k, d, n).Going?
    requires Between(d, After(t, bs, k, d, n).d, d2)
    ensures var o := After(t, bs, k, d, n); After(t, bs + more, k, d2, n) == o.(bs := o.bs + more)
    decreases n
  {
    hide NextRound, Shape, Total, FitsUpTo, Between;
    if n == 0 {
      BetweenSame(d, d2);
    } else {
      var r := NextRound(t, bs, k);
      RoundMore(t, bs, k, more);
      if r.Put? {
        BetweenPut(d, After(t, bs, k, d, n).d, d2, r.q, r.v);
        AfterAgain(t, r.bs, r.k, d[r.q := r.v], n - 1, d2[r.q := r.v], more);
      } else {
        AfterAgain(t, r.bs, r.k, d, n - 1, d2, more);
      }
    }
  }

  /** A finished AC loop from a block already partly written, and with more bits behind. */
  lemma {:induction false} LoopAgain(t: HuffTbl, bs: seq<Bit>, k: nat, d: seq<int>, d2: seq<int>, more: seq<Bit>)
    requires Shape(t) && Total(t.bits) <= 256 && FitsUpTo(t.bits, 16) && |d| == |d2| == 64 && AcLoop(t, bs, k, d).AcDone?
    requires Between(d, AcLoop(t, bs, k, d).d, d2)
    ensures var o := AcLoop(t, bs, k, d); AcLoop(t, bs + more, k, d2) == o.(rest := o.rest + more)
    decreases |bs|
  {
    hide NextRound, AcLoop, Shape, Total, FitsUpTo, Between;
    var r := NextRound(t, bs, k);
    LoopIsRounds(t, bs, k, d);
    RoundMore(t, bs, k, more);
    LoopIsRounds(t, bs + more, k, d2);
    match r
    case Put(bs1, k1, q, v) =>
      BetweenPut(d, AcLoop(t, bs, k, d).d, d2, q, v);
      LoopAgain(t, bs1, k1, d[q := v], d2[q := v], more);
    case Skip(bs1, k1) =>
      LoopAgain(t, bs1, k1, d, d2, more);
    case End(_) =>
      BetweenSame(d, d2);
  }

  // ----- blocks and MCUs -----

  lemma {:induction false} BetweenEnds(d: seq<int>, e: seq<int>)
    requires |d| == |e| == 64
    ensures Between(d, e, d) && Between(d, e, e)
  {
  }

  /** A block decoded before is decoded again, from what it was or from what it became. */
  lemma {:induction false} BlockAgain(dc: HuffTbl, ac: HuffTbl, bs: seq<Bit>, last: int, d: seq<int>, more: seq<Bit>)
    requires TblOk(dc) && TblOk(ac) && |d| == 64 && DecodeBlock(dc, ac, bs, last, d).UnitDone?
    ensures var o := DecodeBlock(dc, ac, bs, last, d);
      && DecodeBlock(dc, ac, bs + more, last, d) == o.(rest := o.rest + more)
      && DecodeBlock(dc, ac, bs + more, last, o.d) == o.(rest := o.rest + more)
  {
    hide AcLoop, TakeDiff, Shape, Total, FitsUpTo, Between;
    DiffMore(dc, bs, more);
    var f := TakeDiff(dc, bs);
    var s := f.diff + last;
    var e := AcLoop(ac, f.rest, 1, d[0 := s]).d;
    BetweenEnds(d[0 := s], e);
    LoopAgain(ac, f.rest, 1, d[0 := s], d[0 := s], more);
    BetweenEnds(d, e);
    BetweenPut(d, e, e, 0, s);
    FirstPut(d, e, s);
    LoopAgain(ac, f.rest, 1, d[0 := s], e[0 := s], more);
  }

  lemma {:induction false} FirstPut(d: seq<int>, e: seq<int>, s: int)
    requires |d| == |e| == 64
    ensures Between(d[0 := s], e, e[0 := s])
  {
  }

  /** The AC loop from a block half written, and from the block as it was. */
  lemma {:induction false} LoopRejoins(t: HuffTbl, bs: seq<Bit>, k: nat, d: seq<int>, n: nat, d2: seq<int>, more: seq<Bit>)
    requires TblOk(t) && |d| == |d2| == 64 && After(t, bs, k, d, n).Going? && Between(d, After(t, bs, k, d, n).d, d2)
    ensures var o := After(t, bs, k, d, n); AcLoop(t, bs + more, k, d2) == AcLoop(t, o.bs + more, o.k, o.d)
  {
    hide AcLoop, Shape, Total, FitsUpTo, Between, After;
    AfterAgain(t, bs, k, d, n, d2, more);
    AfterLoop(t, bs + more, k, d2, n);
  }

  lemma {:induction false} BlockIs(dc: HuffTbl, ac: HuffTbl, bs: seq<Bit>, last: int, d: seq<int>, diff: int, rest: seq<Bit>)
    requires TblOk(dc) && TblOk(ac) && |d| == 64 && TakeDiff(dc, bs) == DiffGot(diff, rest)
    ensures DecodeBlock(dc, ac, bs, last, d) ==
      match AcLoop(ac, rest, 1, d[0 := diff + last])
      case AcDone(bs2, d2) => UnitDone(bs2, diff + last, d2)
      case AcShort(d2) => UnitShort(d2)
  {
    hide AcLoop, TakeDiff, Shape, Total, FitsUpTo;
  }

  /** The block e is what n rounds of the AC loop, after the DC term, have made of d. */
  ghost predicate HalfWay(dc: HuffTbl, ac: HuffTbl, bs: seq<Bit>, last: int, d: seq<int>, e: seq<int>, n: nat)
    requires TblOk(dc) && TblOk(ac) && |d| == 64
  {
    match TakeDiff(dc, bs)
    case DiffShort => false
    case DiffGot(diff, rest) =>
      match After(ac, rest, 1, d[0 := diff + last], n)
      case Over => false
      case Going(_, _, x) => x == e
  }

  /** A block left in the middle is decoded again as if it were untouched. */
  lemma {:induction false} PartAgain(dc: HuffTbl, ac: HuffTbl, bs: seq<Bit>, last: int, d: seq<int>, e: seq<int>, n: nat, more: seq<Bit>)
    requires TblOk(dc) && TblOk(ac) && |d| == |e| == 64 && HalfWay(dc, ac, bs, last, d, e, n)
    ensures DecodeBlock(dc, ac, bs + more, last, e) == DecodeBlock(dc, ac, bs + more, last, d)
  {
    hide AcLoop, TakeDiff, Shape, Total, FitsUpTo, Between, After, DecodeBlock;
    DiffMore(dc, bs, more);
    var f := TakeDiff(dc, bs);
    var s := f.diff + last;
    BlockIs(dc, ac, bs + more, last, d, f.diff, f.rest + more);
    BlockIs(dc, ac, bs + more, last, e, f.diff, f.rest + more);
    BetweenEnds(d[0 := s], e);
    FirstPut(d, e, s);
    LoopRejoins(ac, f.rest, 1, d[0 := s], n, d[0 := s], more);
    LoopRejoins(ac, f.rest, 1, d[0 := s], n, e[0 := s], more);
  }

  // ----- an MCU -----

  /** Decoding the first blocks of an MCU gives vals and leaves bits b and predictions p. */
  ghost predicate Reached(x: Tables, bs: seq<Bit>, pred: seq<int>, slots: seq<Slot>, vals: seq<seq<int>>, b: seq<Bit>, p: seq<int>)
    requires Readable(x) && SlotsOk(x, |pred|, slots)
    decreases |vals|
  {
    if vals == [] then b == bs && p == pred
    else if slots == [] then false
    else
      assert SlotOk(x, |pred|, slots[0]);
      match BlockOf(x, bs, pred, slots[0])
      case UnitShort(_) => false
      case UnitDone(b1, s, d) => d == vals[0] && Reached(x, b1, pred[slots[0].ci := s], slots[1..], vals[1..], b, p)
  }

  ghost function BlockOf(x: Tables, bs: seq<Bit>, pred: seq<int>, u: Slot): (o: UnitOut)
    requires Readable(x) && SlotOk(x, |pred|, u)
    ensures |o.d| == 64 && (o.UnitDone? ==> |o.rest| <= |bs|)
  {
    SlotTables(x, |pred|, u);
    DecodeBlock(x.dc[u.dc], x.ac[u.ac], bs, pred[u.ci], u.d)
  }

  lemma {:induction false} McuIsBlocks(x: Tables, bs: seq<Bit>, pred: seq<int>, slots: seq<Slot>)
    requires Readable(x) && SlotsOk(x, |pred|, slots)
    ensures DecodeMcu(x, bs, pred, slots) ==
      if slots == [] then McuDone(bs, pred, [])
      else
        assert SlotOk(x, |pred|, slots[0]);
        match BlockOf(x, bs, pred, slots[0])
        case UnitShort(d) => McuShort([d])
        case UnitDone(bs1, s, d) => Push(d, DecodeMcu(x, bs1, pred[slots[0].ci := s], slots[1..]))
  {
    hide Readable, DecodeBlock;
    if slots != [] {
      assert SlotOk(x, |pred|, slots[0]);
    }
  }

  lemma {:induction false} ReachedLength(x: Tables, bs: seq<Bit>, pred: seq<int>, slots: seq<Slot>, vals: seq<seq<int>>, b: seq<Bit>, p: seq<int>)
    requires Readable(x) && SlotsOk(x, |pred|, slots) && Reached(x, bs, pred, slots, vals, b, p)
    ensures |vals| <= |slots| && |p| == |pred| && forall i :: 0 <= i < |vals| ==> |vals[i]| == 64
    decreases |vals|
  {
    hide Readable, BlockOf;
    if vals != [] {
      assert SlotOk(x, |pred|, slots[0]);
      var o := BlockOf(x, bs, pred, slots[0]);
      ReachedLength(x, o.rest, pred[slots[0].ci := o.dc], slots[1..], vals[1..], b, p);
    }
  }

  /** One block further. */
  lemma {:induction false} ReachedNext(x: Tables, bs: seq<Bit>, pred: seq<int>, slots: seq<Slot>, vals: seq<seq<int>>, b: seq<Bit>, p: seq<int>)
    requires Readable(x) && SlotsOk(x, |pred|, slots) && Reached(x, bs, pred, slots, vals, b, p) && |vals| < |slots|
    ensures |p| == |pred| && SlotOk(x, |p|, slots[|vals|])
    ensures var u := slots[|vals|];
      match BlockOf(x, b, p, u)
      case UnitShort(_) => DecodeMcu(x, bs, pred, slots).McuShort?
      case UnitDone(b1, s, d) => Reached(x, bs, pred, slots, vals + [d], b1, p[u.ci := s])
    decreases |vals|
  {
    hide Readable, BlockOf, DecodeMcu;
    ReachedLength(x, bs, pred, slots, vals, b, p);
    McuIsBlocks(x, bs, pred, slots);
    assert SlotOk(x, |pred|, slots[0]);
    if vals == [] {
      var o := BlockOf(x, bs, pred, slots[0]);
      if o.UnitDone? {
        assert ([] + [o.d])[1..] == [];
      }
    } else {
      var o := BlockOf(x, bs, pred, slots[0]);
      ReachedNext(x, o.rest, pred[slots[0].ci := o.dc], slots[1..], vals[1..], b, p);
      var o1 := BlockOf(x, b, p, slots[|vals|]);
      assert (vals + [o1.d])[1..] == vals[1..] + [o1.d];
    }
  }

  /** All blocks done. */
  lemma {:induction false} ReachedAll(x: Tables, bs: seq<Bit>, pred: seq<int>, slots: seq<Slot>, vals: seq<seq<int>>, b: seq<Bit>, p: seq<int>)
    requires Readable(x) && SlotsOk(x, |pred|, slots) && Reached(x, bs, pred, slots, vals, b, p) && |vals| == |slots|
    ensures DecodeMcu(x, bs, pred, slots) == McuDone(b, p, vals)
    decreases |vals|
  {
    hide Readable, BlockOf, DecodeMcu;
    McuIsBlocks(x, bs, pred, slots);
    if vals != [] {
      assert SlotOk(x, |pred|, slots[0]);
      var o := BlockOf(x, bs, pred, slots[0]);
      ReachedAll(x, o.rest, pred[slots[0].ci := o.dc], slots[1..], vals[1..], b, p);
      assert [vals[0]] + vals[1..] == vals;
    }
  }

  lemma {:induction false} McuUses(x: Tables, bs: seq<Bit>, pred: seq<int>, slots: seq<Slot>)
    requires Readable(x) && SlotsOk(x, |pred|, slots)
    ensures var o := DecodeMcu(x, bs, pred, slots); o.McuDone? ==> |o.rest| <= |bs|
    decreases |slots|
  {
    hide Readable, BlockOf, DecodeMcu;
    McuIsBlocks(x, bs, pred, slots);
    if slots != [] {
      assert SlotOk(x, |pred|, slots[0]);
      var o := BlockOf(x, bs, pred, slots[0]);
      if o.UnitDone? {
        McuUses(x, o.rest, pred[slots[0].ci := o.dc], slots[1..]);
      }
    }
  }

  /** If the next block would leave few bits, so does the MCU. */
  lemma {:induction false} ReachedFew(x: Tables, bs: seq<Bit>, pred: seq<int>, slots: seq<Slot>, vals: seq<seq<int>>, b: seq<Bit>, p: seq<int>, m: nat)
    requires Readable(x) && SlotsOk(x, |pred|, slots) && Reached(x, bs, pred, slots, vals, b, p) && |vals| < |slots|
    requires |p| == |pred| && SlotOk(x, |p|, slots[|vals|])
    requires var o := BlockOf(x, b, p, slots[|vals|]); o.UnitDone? ==> |o.rest| < m
    ensures var o := DecodeMcu(x, bs, pred, slots); o.McuDone? ==> |o.rest| < m
    decreases |vals|
  {
    hide Readable, BlockOf, DecodeMcu;
    McuIsBlocks(x, bs, pred, slots);
    assert SlotOk(x, |pred|, slots[0]);
    var o := BlockOf(x, bs, pred, slots[0]);
    if vals != [] {
      ReachedFew(x, o.rest, pred[slots[0].ci := o.dc], slots[1..], vals[1..], b, p, m);
    } else if o.UnitDone? {
      McuUses(x, o.rest, pred[slots[0].ci := o.dc], slots[1..]);
    }
  }

  /** The slots as a failed call leaves them: the first ones done, the next perhaps half done. */
  function Touched(slots: seq<Slot>, vals: seq<seq<int>>, e: seq<int>): (ss: seq<Slot>)
    requires |vals| < |slots|
    ensures |ss| == |slots|
  {
    seq(|slots|, i requires 0 <= i < |slots| =>
      if i < |vals| then slots[i].(d := vals[i]) else if i == |vals| then slots[i].(d := e) else slots[i])
  }

  lemma {:induction false} TouchedOk(x: Tables, comps: nat, slots: seq<Slot>, vals: seq<seq<int>>, e: seq<int>)
    requires SlotsOk(x, comps, slots) && |vals| < |slots| && |e| == 64 && forall i :: 0 <= i < |vals| ==> |vals[i]| == 64
    ensures SlotsOk(x, comps, Touched(slots, vals, e))
  {
    forall i | 0 <= i < |slots| ensures SlotOk(x, comps, Touched(slots, vals, e)[i]) {
      assert SlotOk(x, comps, slots[i]);
    }
  }

  /** The block e makes no difference to what more bits will give. */
  ghost predicate Harmless(x: Tables, bs: seq<Bit>, pred: seq<int>, u: Slot, e: seq<int>)
    requires Readable(x) && SlotOk(x, |pred|, u) && |e| == 64
  {
    forall more: seq<Bit> :: BlockOf(x, bs + more, pred, u.(d := e)) == BlockOf(x, bs + more, pred, u)
  }

  /** Retrying an MCU after a failed call, with more bits, gives what one call on the
      untouched blocks would give. */
  lemma {:induction false} McuAgain(x: Tables, bs: seq<Bit>, pred: seq<int>, slots: seq<Slot>, vals: seq<seq<int>>, b: seq<Bit>, p: seq<int>,
                                    e: seq<int>, more: seq<Bit>)
    requires Readable(x) && SlotsOk(x, |pred|, slots) && Reached(x, bs, pred, slots, vals, b, p) && |vals| < |slots| && |e| == 64
    requires |p| == |pred| && SlotOk(x, |p|, slots[|vals|]) && Harmless(x, b, p, slots[|vals|], e)
    requires SlotsOk(x, |pred|, Touched(slots, vals, e))
    ensures DecodeMcu(x, bs + more, pred, Touched(slots, vals, e)) == DecodeMcu(x, bs + more, pred, slots)
    decreases |vals|
  {
    hide Readable, BlockOf, Harmless, DecodeMcu;
    var ts := Touched(slots, vals, e);
    McuIsBlocks(x, bs + more, pred, slots);
    McuIsBlocks(x, bs + more, pred, ts);
    assert SlotOk(x, |pred|, slots[0]) && SlotOk(x, |pred|, ts[0]);
    if vals == [] {
      assert ts[0] == slots[0].(d := e) && ts[1..] == slots[1..];
      HarmlessMeans(x, bs, pred, slots[0], e, more);
    } else {
      var u := slots[0];
      var o := BlockOf(x, bs, pred, u);
      BlockOfAgain(x, bs, pred, u, more);
      assert ts[0] == u.(d := o.d);
      assert ts[1..] == Touched(slots[1..], vals[1..], e);
      McuAgain(x, o.rest, pred[u.ci := o.dc], slots[1..], vals[1..], b, p, e, more);
    }
  }

  lemma {:induction false} SlotTables(x: Tables, comps: nat, u: Slot)
    requires Readable(x) && SlotOk(x, comps, u)
    ensures TblOk(x.dc[u.dc]) && TblOk(x.ac[u.ac])
  {
    hide TblOk;
  }

  lemma {:induction false} HarmlessMeans(x: Tables, bs: seq<Bit>, pred: seq<int>, u: Slot, e: seq<int>, more: seq<Bit>)
    requires Readable(x) && SlotOk(x, |pred|, u) && |e| == 64 && Harmless(x, bs, pred, u, e)
    ensures BlockOf(x, bs + more, pred, u.(d := e)) == BlockOf(x, bs + more, pred, u)
  {
    hide Readable, BlockOf;
  }

  lemma {:induction false} BlockOfAgain(x: Tables, bs: seq<Bit>, pred: seq<int>, u: Slot, more: seq<Bit>)
    requires Readable(x) && SlotOk(x, |pred|, u) && BlockOf(x, bs, pred, u).UnitDone?
    ensures SlotOk(x, |pred|, u.(d := BlockOf(x, bs, pred, u).d))
    ensures var o := BlockOf(x, bs, pred, u);
      && BlockOf(x, bs + more, pred, u) == o.(rest := o.rest + more)
      && BlockOf(x, bs + more, pred, u.(d := o.d)) == o.(rest := o.rest + more)
  {
    hide Readable, DecodeBlock, TblOk;
    SlotTables(x, |pred|, u);
    BlockAgain(x.dc[u.dc], x.ac[u.ac], bs, pred[u.ci], u.d, more);
  }
}
