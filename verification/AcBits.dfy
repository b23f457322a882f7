// AC scans read from bits instead of tokens: the same decoding, with every request answered by
// the Huffman decoder and the bit buffer, and the proof that it finds the same blocks.
module AcBits {
  import opened Arith
  import opened BitStrings
  import opened BitPacking
  import opened Coefficients
  import opened Tokens
  import opened SequentialScan
  import opened SequentialStream
  import opened TokenBytes
  import R = AcRefine
  import F = AcFirst
  import AC = AcScan

  // ----- decoding -----

  datatype SkipOut = SkipTo(s: Stream, k: nat, d: seq<int>) | SkipShort

  /** Over already-nonzero coefficients, a correction bit each, and r still-zero ones. */
  function Skip(b: R.Band, s: Stream, k: nat, r: nat, d: seq<int>): (o: SkipOut)
    requires b.se < |d|
    ensures o.SkipTo? ==> |o.d| == |d| && |o.s.bits| <= |s.bits|
    decreases b.se + 1 - k
  {
    if k > b.se then SkipTo(s, k, d)
    else if d[k] != 0 then
      match AskBits(s, 1)
      case NoAnswer => SkipShort
      case Answer(v, s1) => Skip(b, s1, k + 1, r, d[k := R.Correct(d[k], v, b.al)])
    else if r == 0 then SkipTo(s, k, d)
    else Skip(b, s, k + 1, r - 1, d)
  }

  /** Where a block is left: the rest of the input, the position, the EOB run, the coefficients. */
  datatype LoopOut = LoopDone(s: Stream, k: nat, run: nat, d: seq<int>) | LoopShort

  /** The symbols of a first scan from position k on. */
  ghost function FirstLoop(x: Tables, b: R.Band, s: Stream, k: nat, d: seq<int>): (o: LoopOut)
    requires Readable(x) && R.BandOk(b) && |d| == 64
    ensures o.LoopDone? ==> |o.d| == 64
    decreases |s.bits|
  {
    if k > b.se then LoopDone(s, k, 0, d)
    else match AskSymbol(x, s, b.tbl)
      case NoAnswer => LoopShort
      case Answer(v, s1) =>
        var r, n := v / 16, v % 16;
        if n != 0 then
          match AskBits(s1, n)
          case NoAnswer => LoopShort
          case Answer(bits, s2) =>
            FirstLoop(x, b, s2, k + r + 1, d[Clamp(k + r) := HuffExtend(bits, n) * Pow2(b.al)])
        else if r == 15 then FirstLoop(x, b, s1, k + 16, d)
        else EobRun(s1, r, k, d)
  }

  /** An EOBn symbol: its low bits, and the run it starts, counting this block. */
  function EobRun(s: Stream, n: nat, k: nat, d: seq<int>): LoopOut {
    if n == 0 then LoopDone(s, k, 1, d)
    else match AskBits(s, n)
      case NoAnswer => LoopShort
      case Answer(v, s1) => LoopDone(s1, k, Pow2(n) + v, d)
  }

  /** The symbols of a refinement scan from position k on. */
  ghost function RefineLoop(x: Tables, b: R.Band, s: Stream, k: nat, d: seq<int>): (o: LoopOut)
    requires Readable(x) && R.BandOk(b) && |d| == 64
    ensures o.LoopDone? ==> |o.d| == 64
    decreases |s.bits|, 1
  {
    if k > b.se then LoopDone(s, k, 0, d)
    else match AskSymbol(x, s, b.tbl)
      case NoAnswer => LoopShort
      case Answer(v, s1) =>
        var r := v / 16;
        if v % 16 != 0 then
          match AskBits(s1, 1)
          case NoAnswer => LoopShort
          case Answer(sign, s2) => Resume(x, b, Skip(b, s2, k, r, d), R.NewValue(sign, b.al))
        else if r == 15 then Resume(x, b, Skip(b, s1, k, r, d), 0)
        else EobRun(s1, r, k, d)
  }

  ghost function Resume(x: Tables, b: R.Band, o: SkipOut, v: int): (l: LoopOut)
    requires Readable(x) && R.BandOk(b) && (o.SkipTo? ==> |o.d| == 64)
    ensures l.LoopDone? ==> |l.d| == 64
    decreases if o.SkipTo? then |o.s.bits| else 0, 2
  {
    match o
    case SkipShort => LoopShort
    case SkipTo(s, k, d) => RefineLoop(x, b, s, k + 1, if v != 0 then d[Clamp(k) := v] else d)
  }

  /** The correction bits of the rest of a block that is in an EOB run. */
  function RefineTail(b: R.Band, s: Stream, k: nat, d: seq<int>): (o: SkipOut)
    requires b.se < |d|
    ensures o.SkipTo? ==> |o.d| == |d|
    decreases b.se + 1 - k
  {
    if k > b.se then SkipTo(s, k, d)
    else if d[k] != 0 then
      match AskBits(s, 1)
      case NoAnswer => SkipShort
      case Answer(v, s1) => RefineTail(b, s1, k + 1, d[k := R.Correct(d[k], v, b.al)])
    else RefineTail(b, s, k + 1, d)
  }

  datatype BlockOut = BlockDone(s: Stream, run: nat, d: seq<int>) | BlockShort

  function FinishRun(o: SkipOut, run: nat): BlockOut
    requires run > 0
  {
    if o.SkipTo? then BlockDone(o.s, run - 1, o.d) else BlockShort
  }

  /** decode_mcu_AC_first or decode_mcu_AC_refine on one block. */
  ghost function DecodeBlock(x: Tables, b: R.Band, s: Stream, run: nat, d: seq<int>): (o: BlockOut)
    requires Readable(x) && R.BandOk(b) && |d| == 64
    ensures o.BlockDone? ==> |o.d| == 64
  {
    if b.ah == 0 then
      if run > 0 then BlockDone(s, run - 1, d)
      else match FirstLoop(x, b, s, b.ss, d)
        case LoopShort => BlockShort
        case LoopDone(s1, _, run1, d1) => BlockDone(s1, if run1 > 0 then run1 - 1 else 0, d1)
    else if run > 0 then FinishRun(RefineTail(b, s, b.ss, d), run)
    else match RefineLoop(x, b, s, b.ss, d)
      case LoopShort => BlockShort
      case LoopDone(s1, k, run1, d1) =>
        if run1 == 0 then BlockDone(s1, 0, d1) else FinishRun(RefineTail(b, s1, k, d1), run1)
  }

  datatype BitsOut = AllRead(blocks: seq<seq<int>>, s: Stream) | NotRead

  function Cons(d: seq<int>, o: BitsOut): BitsOut {
    if o.AllRead? then AllRead([d] + o.blocks, o.s) else NotRead
  }

  /** Every MCU of a scan; a restart must be announced by the expected marker. */
  ghost function DecodeScan(x: Tables, b: R.Band, s: Stream, run: nat, evs: seq<Event<seq<int>>>): BitsOut
    requires Readable(x) && R.BandOk(b) && forall i :: 0 <= i < |evs| && evs[i].Item? ==> |evs[i].x| == 64
    decreases |evs|
  {
    if evs == [] then AllRead([], s)
    else match evs[0]
      case Restart(num) =>
        if s.ending == 0xD0 + num then DecodeScan(x, b, Open(s.after), 0, evs[1..]) else NotRead
      case Item(d) =>
        match DecodeBlock(x, b, s, run, d)
        case BlockDone(s1, run1, d1) => Cons(d1, DecodeScan(x, b, s1, run1, evs[1..]))
        case BlockShort => NotRead
  }

  /** A scan from its bytes. */
  ghost function DecodePass(x: Tables, b: R.Band, input: seq<Byte>, ds: seq<seq<int>>, interval: nat): BitsOut
    requires Readable(x) && R.BandOk(b) && forall i :: 0 <= i < |ds| ==> |ds[i]| == 64
  {
    AC.BlocksWithRestarts(ds, interval, interval, 0);
    DecodeScan(x, b, Open(input), 0, WithRestarts(ds, interval, interval, 0))
  }

  // ----- the same blocks as from tokens -----

  lemma {:induction false} SkipSame(x: Tables, b: R.Band, s: Stream, ts: seq<Token>, k: nat, r: nat, d: seq<int>, e: Stream)
    requires Readable(x) && Leads(x, s, ts, e) && b.se < |d|
    ensures var o := R.Skip(b, ts, k, r, d);
      o.SkipTo? ==> var p := Skip(b, s, k, r, d); p.SkipTo? && p.k == o.k && p.d == o.d && Leads(x, p.s, o.ts, e)
    decreases b.se + 1 - k
  {
    hide Readable, Leads, AskBits, R.Correct;
    if k <= b.se {
      if d[k] != 0 {
        LeadsBits(x, s, ts, e, 1);
        var o := ReadBits(ts, 1);
        if o.Got? {
          SkipSame(x, b, AskBits(s, 1).s, o.rest, k + 1, r, d[k := R.Correct(d[k], o.v, b.al)], e);
        }
      } else if r > 0 {
        SkipSame(x, b, s, ts, k + 1, r - 1, d, e);
      }
    }
  }

  lemma {:induction false} TailSame(x: Tables, b: R.Band, s: Stream, ts: seq<Token>, k: nat, d: seq<int>, e: Stream)
    requires Readable(x) && Leads(x, s, ts, e) && b.se < |d|
    ensures var o := R.RefineTail(b, ts, k, d);
      o.SkipTo? ==> var p := RefineTail(b, s, k, d); p.SkipTo? && p.d == o.d && Leads(x, p.s, o.ts, e)
    decreases b.se + 1 - k
  {
    hide Readable, Leads, AskBits, R.Correct;
    if k <= b.se {
      if d[k] != 0 {
        LeadsBits(x, s, ts, e, 1);
        var o := ReadBits(ts, 1);
        if o.Got? {
          TailSame(x, b, AskBits(s, 1).s, o.rest, k + 1, d[k := R.Correct(d[k], o.v, b.al)], e);
        }
      } else {
        TailSame(x, b, s, ts, k + 1, d, e);
      }
    }
  }

  lemma {:induction false} FirstSame(x: Tables, b: R.Band, s: Stream, ts: seq<Token>, k: nat, d: seq<int>, e: Stream)
    requires Readable(x) && Leads(x, s, ts, e) && R.BandOk(b) && |d| == 64
    ensures var o := F.FirstLoop(b, ts, k, d);
      o.FirstDone? ==>
        var p := FirstLoop(x, b, s, k, d);
        p.LoopDone? && (if p.run > 0 then p.run - 1 else 0) == o.run && p.d == o.d && Leads(x, p.s, o.ts, e)
    decreases |ts|
  {
    hide Readable, Leads, AskBits, AskSymbol, HuffExtend, Pow2, FirstLoop, F.FirstLoop;
    FirstPast(x, b, s, ts, k, d);
    if k <= b.se {
      LeadsSym(x, s, ts, e, b.tbl);
      TokenRound(b, ts, k, d);
      var g := ReadSym(ts, b.tbl);
      if g.GotSym? {
        var s1, r, n := AskSymbol(x, s, b.tbl).s, g.s / 16, g.s % 16;
        BitRound(x, b, s, k, d, g.s, s1);
        if n != 0 {
          LeadsBits(x, s1, g.rest, e, n);
          var o := ReadBits(g.rest, n);
          if o.Got? {
            FirstSame(x, b, AskBits(s1, n).s, o.rest, k + r + 1, d[Clamp(k + r) := HuffExtend(o.v, n) * Pow2(b.al)], e);
          }
        } else if r == 15 {
          FirstSame(x, b, s1, g.rest, k + 16, d, e);
        } else {
          EobSame(x, s1, g.rest, r, k, d, e);
        }
      }
    }
  }

  lemma {:induction false} FirstPast(x: Tables, b: R.Band, s: Stream, ts: seq<Token>, k: nat, d: seq<int>)
    requires Readable(x) && R.BandOk(b) && |d| == 64
    ensures k > b.se ==> FirstLoop(x, b, s, k, d) == LoopDone(s, k, 0, d) && F.FirstLoop(b, ts, k, d) == F.FirstDone(ts, 0, d)
  {
  }

  /** The EOBn symbol of a first scan, seen from its tokens. */
  function TokenEob(ts: seq<Token>, n: nat, d: seq<int>): F.FirstOut {
    if n == 0 then F.FirstDone(ts, 0, d)
    else match ReadBits(ts, n)
      case NoData => F.FirstStarved(d)
      case WrongKind => F.FirstGarbled
      case Got(v, ts1) => F.FirstDone(ts1, Pow2(n) + v - 1, d)
  }

  lemma {:induction false} EobSame(x: Tables, s: Stream, ts: seq<Token>, n: nat, k: nat, d: seq<int>, e: Stream)
    requires Readable(x) && Leads(x, s, ts, e)
    ensures var o := TokenEob(ts, n, d);
      o.FirstDone? ==> var p := EobRun(s, n, k, d); p.LoopDone? && p.run == o.run + 1 && p.d == o.d && Leads(x, p.s, o.ts, e)
  {
    hide Readable, Leads, AskBits, Pow2;
    LeadsBits(x, s, ts, e, n);
  }

  lemma {:induction false} TokenRound(b: R.Band, ts: seq<Token>, k: nat, d: seq<int>)
    requires R.BandOk(b) && |d| == 64 && k <= b.se
    ensures var g, o := ReadSym(ts, b.tbl), F.FirstLoop(b, ts, k, d);
      && (!g.GotSym? ==> !o.FirstDone?)
      && (g.GotSym? ==>
        var r, n := g.s / 16, g.s % 16;
        if n != 0 then
          var v := ReadBits(g.rest, n);
          if v.Got? then o == F.FirstLoop(b, v.rest, k + r + 1, d[Clamp(k + r) := HuffExtend(v.v, n) * Pow2(b.al)]) else !o.FirstDone?
        else if r == 15 then o == F.FirstLoop(b, g.rest, k + 16, d)
        else o == TokenEob(g.rest, r, d))
  {
    hide HuffExtend, Pow2, Clamp;
  }

  lemma {:induction false} BitRound(x: Tables, b: R.Band, s: Stream, k: nat, d: seq<int>, v: nat, s1: Stream)
    requires Readable(x) && R.BandOk(b) && |d| == 64 && k <= b.se && AskSymbol(x, s, b.tbl) == Answer(v, s1)
    ensures var r, n, o := v / 16, v % 16, FirstLoop(x, b, s, k, d);
      if n != 0 then
        var a := AskBits(s1, n);
        a.Answer? ==> o == FirstLoop(x, b, a.s, k + r + 1, d[Clamp(k + r) := HuffExtend(a.v, n) * Pow2(b.al)])
      else if r == 15 then o == FirstLoop(x, b, s1, k + 16, d)
      else o == EobRun(s1, r, k, d)
  {
    hide Readable, AskSymbol, AskBits, HuffExtend, Pow2, Clamp, EobRun;
  }

  lemma {:induction false} LoopSame(x: Tables, b: R.Band, s: Stream, ts: seq<Token>, k: nat, d: seq<int>, newnz: seq<nat>, e: Stream)
    requires Readable(x) && Leads(x, s, ts, e) && R.BandOk(b) && |d| == 64 && R.InBlock(newnz)
    ensures var o := R.RefineLoop(b, ts, k, d, newnz);
      o.LoopDone? ==>
        var p := RefineLoop(x, b, s, k, d);
        p.LoopDone? && p.k == o.k && p.run == o.run && p.d == o.d && Leads(x, p.s, o.ts, e)
    decreases |ts|, 0
  {
    hide Readable, Leads, AskBits, AskSymbol, R.NewValue, Pow2, Clamp, Skip, R.Skip, R.Undo;
    if k <= b.se {
      LeadsSym(x, s, ts, e, b.tbl);
      var g := ReadSym(ts, b.tbl);
      if g.GotSym? {
        var s1, r := AskSymbol(x, s, b.tbl).s, g.s / 16;
        if g.s % 16 != 0 {
          LeadsBits(x, s1, g.rest, e, 1);
          var o := ReadBits(g.rest, 1);
          if o.Got? {
            ResumeSame(x, b, AskBits(s1, 1).s, o.rest, k, r, d, newnz, R.NewValue(o.v, b.al), e);
          }
        } else if r == 15 {
          ResumeSame(x, b, s1, g.rest, k, r, d, newnz, 0, e);
        } else if r != 0 {
          LeadsBits(x, s1, g.rest, e, r);
        }
      }
    }
  }

  lemma {:induction false} ResumeSame(x: Tables, b: R.Band, s: Stream, ts: seq<Token>, k: nat, r: nat, d: seq<int>, newnz: seq<nat>, v: int, e: Stream)
    requires Readable(x) && Leads(x, s, ts, e) && R.BandOk(b) && |d| == 64 && R.InBlock(newnz)
    ensures var o := R.AfterSkip(b, R.Skip(b, ts, k, r, d), newnz, v);
      o.Next? ==>
        var q := R.RefineLoop(b, o.ts, o.k, o.d, o.newnz);
        q.LoopDone? ==>
          var p := Resume(x, b, Skip(b, s, k, r, d), v);
          p.LoopDone? && p.k == q.k && p.run == q.run && p.d == q.d && Leads(x, p.s, q.ts, e)
    decreases |ts|, 1
  {
    hide Readable, Leads, R.RefineLoop, RefineLoop, Skip, R.Skip, R.Undo;
    SkipSame(x, b, s, ts, k, r, d, e);
    var o := R.AfterSkip(b, R.Skip(b, ts, k, r, d), newnz, v);
    if o.Next? {
      LoopSame(x, b, Skip(b, s, k, r, d).s, o.ts, o.k, o.d, o.newnz, e);
    }
  }

  lemma {:induction false} BlockSame(x: Tables, b: R.Band, s: Stream, ts: seq<Token>, run: nat, d: seq<int>, e: Stream)
    requires Readable(x) && Leads(x, s, ts, e) && R.BandOk(b) && |d| == 64
    ensures var o := AC.DecodeBlock(b, ts, run, d);
      o.BlockDone? ==>
        var p := DecodeBlock(x, b, s, run, d);
        p.BlockDone? && p.run == o.run && p.d == o.d && Leads(x, p.s, o.ts, e)
  {
    hide Readable, Leads, FirstLoop, F.FirstLoop, RefineLoop, R.RefineLoop, RefineTail, R.RefineTail, R.Undo;
    if b.ah == 0 {
      FirstSame(x, b, s, ts, b.ss, d, e);
    } else if run > 0 {
      TailSame(x, b, s, ts, b.ss, d, e);
    } else {
      LoopSame(x, b, s, ts, b.ss, d, [], e);
      var o, p := R.RefineLoop(b, ts, b.ss, d, []), RefineLoop(x, b, s, b.ss, d);
      if o.LoopDone? {
        TailSame(x, b, p.s, o.ts, p.k, p.d, e);
      }
    }
  }

  /** A scan that decodes from its tokens decodes to the same blocks from any input that
      answers with those tokens. */
  lemma {:induction false} ScanSame(x: Tables, b: R.Band, s: Stream, ts: seq<Token>, run: nat, evs: seq<Event<seq<int>>>, e: Stream)
    requires Readable(x) && Leads(x, s, ts, e) && R.BandOk(b)
    requires forall i :: 0 <= i < |evs| && evs[i].Item? ==> |evs[i].x| == 64
    ensures var o := AC.DecodeScan(b, ts, run, evs);
      o.Decoded? ==>
        var p := DecodeScan(x, b, s, run, evs); p.AllRead? && p.blocks == o.blocks && Leads(x, p.s, o.ts, e)
    decreases |evs|
  {
    hide Readable, Leads, Open, DecodeBlock, AC.DecodeBlock;
    if evs != [] {
      if evs[0].Restart? {
        if ts != [] && ts[0] == Rst(evs[0].num) {
          LeadsRestart(x, s, ts, e, evs[0].num);
          ScanSame(x, b, Open(s.after), ts[1..], 0, evs[1..], e);
        }
      } else {
        BlockSame(x, b, s, ts, run, evs[0].x, e);
        var o, p := AC.DecodeBlock(b, ts, run, evs[0].x), DecodeBlock(x, b, s, run, evs[0].x);
        if o.BlockDone? {
          ScanSame(x, b, p.s, o.ts, o.run, evs[1..], e);
        }
      }
    }
  }

  /** A whole AC scan through bytes: every block gets the values of its source down to bit al. */
  lemma {:induction false} PassDecodes(x: Tables, b: R.Band, xs: seq<AC.Pair>, interval: nat, tail: seq<Byte>) returns (rest: seq<Bit>)
    requires TablesOk(x) && AC.AllOk(b, xs) && AllSendable(x, AC.PassTokens(b, AC.Zs(xs), interval)) && Data(tail) == []
    ensures Readable(x) && |rest| <= 7
    ensures DecodePass(x, b, StreamBytes(x, [], AC.PassTokens(b, AC.Zs(xs), interval)) + tail, AC.Ds(xs), interval)
         == AllRead(AC.NewAll(b, xs), Stream(rest, Marker(tail), AfterMarker(tail)))
  {
    var ts := AC.PassTokens(b, AC.Zs(xs), interval);
    rest := Found(x, [], ts, tail);
    AC.PassDecodes(b, xs, interval);
    PassSame(x, b, StreamBytes(x, [], ts) + tail, ts, AC.Ds(xs), interval, Stream(rest, Marker(tail), AfterMarker(tail)));
    hide TablesOk, Readable, AC.PassTokens, AC.DecodePass, AC.NewAll, StreamBytes, Open, DecodePass, AllSendable;
    var s := Open(StreamBytes(x, [], ts) + tail);
  }

  lemma {:induction false} PassSame(x: Tables, b: R.Band, input: seq<Byte>, ts: seq<Token>, ds: seq<seq<int>>, interval: nat, e: Stream)
    requires Readable(x) && R.BandOk(b) && forall i :: 0 <= i < |ds| ==> |ds[i]| == 64
    requires var s := Open(input); Leads(x, s.(bits := s.bits[0..]), ts, e)
    ensures var o := AC.DecodePass(b, ts, ds, interval);
      o.Decoded? && o.ts == [] ==> DecodePass(x, b, input, ds, interval) == AllRead(o.blocks, e)
  {
    hide Readable, Open, DecodeScan, AC.DecodeScan, WithRestarts;
    var s := Open(input);
    assert s.bits[0..] == s.bits && s.(bits := s.bits) == s;
    AC.BlocksWithRestarts(ds, interval, interval, 0);
    ScanSame(x, b, s, ts, 0, WithRestarts(ds, interval, interval, 0), e);
  }
}
