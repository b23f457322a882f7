// The progressive AC encoder as the source runs it (jcphuff.c): one object whose EOB
// counter, correction-bit buffer and restart counter change from MCU to MCU, in either of
// two modes, gathering symbol statistics or writing output.
module ProgressiveEncoder {
  import opened Arith
  import opened Coefficients
  import opened Tokens
  import opened AcRefine
  import opened AcFirst
  import AC = AcScan

  class Encoder {
    const band: Band
    const gather: bool
    const restartInterval: nat
    const bitBuffer: array<bool>
    var out: seq<Token>
    var counts: map<Token, nat>
    var eobrun: nat
    var be: nat
    var restartsToGo: nat
    var nextRestartNum: nat
    /** Everything emitted or counted so far, whatever the mode. */
    ghost var log: seq<Token>

    /** start_pass_phuff. */
    constructor (b: Band, gatherStatistics: bool, interval: nat)
      requires BandOk(b)
      ensures band == b && gather == gatherStatistics && restartInterval == interval
      ensures Valid() && fresh(bitBuffer) && log == [] && State() == RunState(0, [])
      ensures restartsToGo == interval && nextRestartNum == 0
    {
      band, gather, restartInterval := b, gatherStatistics, interval;
      bitBuffer := new bool[MAX_CORR_BITS](_ => false);
      out, counts, log := [], map[], [];
      eobrun, be := 0, 0;
      restartsToGo, nextRestartNum := interval, 0;
    }

    /** Output holds exactly the log; or, when gathering, the counters hold exactly its symbols. */
    ghost predicate Ledger()
      reads this`out, this`counts, this`log
    {
      if gather then out == [] && forall t: Token :: t.Sym? ==> Count(t) == multiset(log)[t]
      else out == log
    }

    function Count(t: Token): nat
      reads this`counts
    {
      if t in counts then counts[t] else 0
    }

    ghost predicate Valid()
      reads this, bitBuffer
    {
      && BandOk(band) && bitBuffer.Length == MAX_CORR_BITS && Ledger()
      && be <= MAX_CORR_BITS && eobrun <= MAX_EOBRUN && nextRestartNum < 8
    }

    ghost function State(): RunState
      reads this, bitBuffer
      requires be <= bitBuffer.Length
    {
      RunState(eobrun, bitBuffer[..be])
    }

    method EmitSymbol(symbol: nat)
      requires Ledger()
      modifies this`out, this`counts, this`log
      ensures Ledger() && log == old(log) + [Sym(band.tbl, symbol)]
    {
      var t := Sym(band.tbl, symbol);
      if gather {
        counts := counts[t := Count(t) + 1];
      } else {
        out := out + [t];
      }
      log := log + [t];
    }

    /** The low `size` bits of code; size 0 would be a missing Huffman code. */
    method EmitBits(code: int, size: nat)
      requires Ledger() && size > 0
      modifies this`out, this`log
      ensures Ledger() && log == old(log) + [Bits(code % Pow2(size), size)]
    {
      if !gather {
        out := out + [Bits(code % Pow2(size), size)];
      }
      log := log + [Bits(code % Pow2(size), size)];
    }

    method EmitBufferedBits(start: nat, nbits: nat)
      requires Ledger() && start + nbits <= bitBuffer.Length
      modifies this`out, this`log
      ensures Ledger() && log == old(log) + BitTokens(bitBuffer[start..start + nbits])
    {
      if gather {
        log := log + BitTokens(bitBuffer[start..start + nbits]);
        return;
      }
      var i := 0;
      while i < nbits
        invariant 0 <= i <= nbits && Ledger()
        invariant log == old(log) + BitTokens(bitBuffer[start..start + i])
      {
        assert Pow2(1) == 2;
        EmitBits(if bitBuffer[start + i] then 1 else 0, 1);
        assert bitBuffer[start..start + i + 1] == bitBuffer[start..start + i] + [bitBuffer[start + i]];
        BitTokensConcat(bitBuffer[start..start + i], [bitBuffer[start + i]]);
        i := i + 1;
      }
    }

    /** emit_eobrun.  The bit count never exceeds 14, so the source's safety check cannot fire. */
    method EmitEobrun()
      requires Valid()
      modifies this`out, this`counts, this`log, this`eobrun, this`be
      ensures Valid() && log == old(log) + EobTokens(band.tbl, old(eobrun), old(bitBuffer[..be]))
      ensures eobrun == 0 && be == if old(eobrun) > 0 then 0 else old(be)
    {
      if eobrun > 0 {
        var nbits := RunBits(eobrun);
        EobValue(eobrun);
        assert nbits <= 14;
        EobTokensParts(band.tbl, eobrun, bitBuffer[..be], log);
        hide EobTokens, BitTokens, Pow2, NBits, Ledger;
        EmitSymbol(nbits * 16);
        if nbits != 0 {
          EmitBits(eobrun, nbits);
        }
        eobrun := 0;
        EmitBufferedBits(0, be);
        be := 0;
      }
    }

    /** emit_restart, for an AC scan. */
    method EmitRestart(num: nat)
      requires Valid()
      modifies this`out, this`counts, this`log, this`eobrun, this`be
      ensures Valid() && State() == RunState(0, [])
      ensures log == old(log) + EobTokens(band.tbl, old(eobrun), old(bitBuffer[..be])) + [Rst(num)]
    {
      EmitEobrun();
      if !gather {
        out := out + [Rst(num)];
      }
      log := log + [Rst(num)];
      eobrun, be := 0, 0;
    }

    ghost predicate ReadyFor(block: array<int>, order: seq<nat>)
      reads this, bitBuffer, block
    {
      Valid() && block.Length == 64 && IsZigzag(order) && RunOk(State())
    }

    /** While a block is coded: nothing emitted and the pending run untouched, or the run
        flushed and the block's head emitted so far. */
    ghost predicate Emitted(st: RunState, log0: seq<Token>, head: seq<Token>)
      reads this, bitBuffer
      requires be <= bitBuffer.Length
    {
      if head == [] then log == log0 && State() == st
      else log == log0 + EobTokens(band.tbl, st.run, st.corr) + head && State() == RunState(0, [])
    }

    /** Flush the pending run, if it is still pending, before the first emission of a block. */
    method FlushRun(ghost st: RunState, ghost log0: seq<Token>, ghost head: seq<Token>)
      requires Valid() && RunOk(st) && Emitted(st, log0, head)
      modifies this`out, this`counts, this`log, this`eobrun, this`be
      ensures Valid() && eobrun == 0 && be == 0
      ensures log == log0 + EobTokens(band.tbl, st.run, st.corr) + head
    {
      assert EobTokens(band.tbl, 0, []) == [];
      assert st.run == 0 ==> EobTokens(band.tbl, st.run, st.corr) == [];
      hide EobTokens, Ledger;
      EmitEobrun();
      assert old(be) == 0 ==> old(bitBuffer[..be]) == [];
    }

    /** while (r > 15) { emit 0xF0; r -= 16; } */
    method EmitZeroRuns(r0: nat) returns (r: nat)
      requires Valid() && eobrun == 0 && be == 0
      modifies this`out, this`counts, this`log
      ensures Valid() && r == r0 % 16 && log == old(log) + Zrls(band.tbl, r0 / 16)
    {
      hide Ledger;
      r := r0;
      while r > 15
        invariant r <= r0 && (r0 - r) % 16 == 0 && Valid()
        invariant log == old(log) + Zrls(band.tbl, (r0 - r) / 16)
      {
        EmitSymbol(ZRL);
        r := r - 16;
        ZrlsMore(band.tbl, (r0 - r) / 16);
      }
    }

    /** The zero runs, symbol and value bits of one nonzero coefficient, after any pending EOB run. */
    method EmitValue(r0: nat, temp: nat, temp2: int, ghost p: int, ghost st: RunState, ghost log0: seq<Token>, ghost head: seq<Token>)
      returns (ok: bool)
      requires Valid() && RunOk(st) && Emitted(st, log0, head)
      requires p != 0 && temp == Abs(p) && temp2 == if p < 0 then p - 1 else p
      modifies this`out, this`counts, this`log, this`eobrun, this`be
      ensures Valid()
      ensures ok <==> NBits(Abs(p)) <= MAX_COEF_BITS
      ensures ok ==> Emitted(st, log0, head + (Zrls(band.tbl, r0 / 16) + ValueTokens(band.tbl, r0 % 16, p)))
    {
      hide EobTokens, Ledger, NBits, Pow2, Zrls;
      FlushRun(st, log0, head);
      ghost var log1 := log;
      var r := EmitZeroRuns(r0);
      var nbits := CountBits(temp);
      if nbits > MAX_COEF_BITS {
        return false;
      }
      NBitsRange(temp);
      ghost var log2 := log;
      EmitSymbol(r * 16 + nbits);
      EmitBits(temp2, nbits);
      assert bitBuffer[..0] == [];
      assert log == log2 + ValueTokens(band.tbl, r0 % 16, p);
      Assoc3(log1, Zrls(band.tbl, r0 / 16), ValueTokens(band.tbl, r0 % 16, p));
      Assoc3(log0 + EobTokens(band.tbl, st.run, st.corr), head, Zrls(band.tbl, r0 / 16) + ValueTokens(band.tbl, r0 % 16, p));
      ok := true;
    }

    /** The end of a block: join an EOB run with br new correction bits, and force the run
        out if a counter is about to overflow. */
    method FinishBlock(eob: bool, br: nat, ghost st: RunState, ghost log0: seq<Token>, ghost c: BlockCode)
      requires Valid() && RunOk(st) && Emitted(st, log0, c.head)
      requires eob == c.eob && be + br <= MAX_CORR_BITS && (!eob ==> br == 0)
      requires c.tail == bitBuffer[be..be + br]
      modifies this`out, this`counts, this`log, this`eobrun, this`be
      ensures Valid() && RunOk(State())
      ensures log == log0 + StepTokens(band.tbl, st, c) && State() == StepState(st, c)
    {
      StepFromHead(band.tbl, log0, st, c);
      hide EobTokens, Ledger, StepTokens;
      if eob {
        assert bitBuffer[..be + br] == bitBuffer[..be] + bitBuffer[be..be + br];
        eobrun := eobrun + 1;
        be := be + br;
        assert State() == Joined(st, c);
        if eobrun == MAX_EOBRUN || be > MAX_CORR_BITS - 64 + 1 {
          EmitEobrun();
          assert bitBuffer[..0] == [];
        }
      }
    }

    /** One block of a first AC scan; false where the source reports a coefficient out of range. */
    method EncodeFirst(block: array<int>, order: seq<nat>) returns (ok: bool)
      requires ReadyFor(block, order) && band.ah == 0
      modifies this`out, this`counts, this`log, this`eobrun, this`be
      ensures ok <==> InRange(band, Zig(block[..], order))
      ensures ok ==> ReadyFor(block, order)
      ensures ok ==> var c := FirstCode(band, Zig(block[..], order), band.ss, 0);
        log == old(log) + StepTokens(band.tbl, old(State()), c) && State() == StepState(old(State()), c)
    {
      hide FirstCode, EobTokens, ValueTokens, Ledger, Pow2, NBits, AcPoint, StepTokens, StepState;
      ghost var z := Zig(block[..], order);
      ghost var st, log0, all := State(), log, FirstCode(band, z, band.ss, 0);
      ghost var head: seq<Token> := [];
      var r, k := 0, band.ss;
      while k <= band.se
        invariant band.ss <= k <= band.se + 1 && Valid() && RunOk(State())
        invariant all == Before(head, FirstCode(band, z, k, r))
        invariant Emitted(st, log0, head)
        invariant forall x :: band.ss <= x < k ==> NBits(Abs(AcPoint(z[x], band.al))) <= MAX_COEF_BITS
      {
        FirstCodeStep(band, z, k, r);
        var temp, temp2 := Transform(block[order[k]], band.al);
        ghost var p := AcPoint(z[k], band.al);
        if temp == 0 {
          r := r + 1;
          NBitsBound(0, MAX_COEF_BITS);
        } else {
          ok := EmitValue(r, temp, temp2, p, st, log0, head);
          if !ok {
            return;
          }
          ghost var more := Zrls(band.tbl, r / 16) + ValueTokens(band.tbl, r % 16, p);
          BeforeTwice(head, more, FirstCode(band, z, k + 1, 0));
          head := head + more;
          r := 0;
        }
        k := k + 1;
      }
      FirstCodeEnd(band, z, r);
      assert bitBuffer[be..be] == [];
      FinishBlock(r > 0, 0, st, log0, all);
      ok := true;
    }

    /** The pre-pass of a refinement block: transformed magnitudes and the EOB position. */
    method PrePass(block: array<int>, order: seq<nat>) returns (absvalues: array<nat>, eob: nat)
      requires BandOk(band) && block.Length == 64 && IsZigzag(order)
      ensures absvalues.Length == 64 && fresh(absvalues)
      ensures var a := Magnitudes(Zig(block[..], order), band.al);
        eob == LastNew(a, band.ss, band.se + 1) && forall k :: band.ss <= k <= band.se ==> absvalues[k] == a[k]
    {
      ghost var a := Magnitudes(Zig(block[..], order), band.al);
      absvalues := new nat[64](_ => 0);
      eob := 0;
      var k := band.ss;
      while k <= band.se
        invariant band.ss <= k <= band.se + 1
        invariant eob == LastNew(a, band.ss, k)
        invariant forall x :: band.ss <= x < k ==> absvalues[x] == a[x]
      {
        var temp := block[order[k]];
        if temp < 0 {
          temp := -temp;
        }
        temp := ShiftRight(temp, band.al);
        absvalues[k] := temp;
        if temp == 1 {
          eob := k;
        }
        k := k + 1;
      }
    }

    /** A ZRL with the correction bits that must go with it: br bits from `base` on. */
    method EmitZrl(base: nat, br: nat, ghost st: RunState, ghost log0: seq<Token>, ghost head: seq<Token>)
      requires Valid() && RunOk(st) && Emitted(st, log0, head) && base + br <= MAX_CORR_BITS
      modifies this`out, this`counts, this`log, this`eobrun, this`be
      ensures Valid() && be == 0
      ensures Emitted(st, log0, head + ([Sym(band.tbl, ZRL)] + BitTokens(bitBuffer[base..base + br])))
    {
      hide EobTokens, Ledger, BitTokens;
      FlushRun(st, log0, head);
      EmitSymbol(ZRL);
      EmitBufferedBits(base, br);
      assert bitBuffer[..0] == [];
    }

    /** A newly nonzero coefficient: symbol, sign bit and its correction bits. */
    method EmitNew(r: nat, sign: nat, base: nat, br: nat, ghost st: RunState, ghost log0: seq<Token>, ghost head: seq<Token>)
      requires Valid() && RunOk(st) && Emitted(st, log0, head) && base + br <= MAX_CORR_BITS && sign <= 1
      modifies this`out, this`counts, this`log, this`eobrun, this`be
      ensures Valid() && be == 0
      ensures Emitted(st, log0, head + ([Sym(band.tbl, r * 16 + 1), Bits(sign, 1)] + BitTokens(bitBuffer[base..base + br])))
    {
      hide EobTokens, Ledger, BitTokens;
      FlushRun(st, log0, head);
      assert Pow2(1) == 2;
      hide Pow2;
      EmitSymbol(r * 16 + 1);
      EmitBits(sign, 1);
      EmitBufferedBits(base, br);
      assert bitBuffer[..0] == [];
    }

    /** The ZRLs that must precede a nonzero coefficient at k, unless they fold into the EOB. */
    method EmitZrls(ghost z: seq<int>, ghost a: seq<nat>, eob: nat, k: nat, r0: nat, base0: nat, br0: nat,
                    ghost st: RunState, ghost log0: seq<Token>, ghost head0: seq<Token>, ghost pend0: seq<bool>)
      returns (r: nat, base: nat, br: nat, ghost head: seq<Token>, ghost pend: seq<bool>)
      requires Valid() && RunOk(st) && Emitted(st, log0, head0)
      requires |a| == |z| == 64 && k <= band.se && a[k] != 0
      requires base0 == be && base0 + br0 <= MAX_CORR_BITS && pend0 == bitBuffer[base0..base0 + br0]
      modifies this`out, this`counts, this`log, this`eobrun, this`be
      ensures Valid() && Emitted(st, log0, head) && base == be <= old(be) && br <= br0
      ensures pend == bitBuffer[base..base + br] && (r <= 15 || k > eob)
      ensures Before(head0, RefineCode(band, z, a, eob, k, r0, pend0)) == Before(head, RefineCode(band, z, a, eob, k, r, pend))
    {
      hide RefineCode, EobTokens, BitTokens, Ledger, Before;
      r, base, br, head, pend := r0, base0, br0, head0, pend0;
      while r > 15 && k <= eob
        invariant Valid() && Emitted(st, log0, head) && br <= br0 && base == be <= old(be)
        invariant pend == bitBuffer[base..base + br]
        invariant Before(head0, RefineCode(band, z, a, eob, k, r0, pend0)) == Before(head, RefineCode(band, z, a, eob, k, r, pend))
      {
        CodeStep(band, z, a, eob, k, r, pend);
        EmitZrl(base, br, st, log0, head);
        r := r - 16;
        BeforeTwice(head, [Sym(band.tbl, ZRL)] + BitTokens(pend), RefineCode(band, z, a, eob, k, r, []));
        head := head + ([Sym(band.tbl, ZRL)] + BitTokens(pend));
        base, br, pend := 0, 0, [];
      }
    }

    /** A coefficient that is nonzero after the transform: a correction bit to be saved, or a
        newly nonzero value to be coded now. */
    method CodeNonzero(ghost z: seq<int>, ghost a: seq<nat>, eob: nat, k: nat, temp: nat, sign: nat, r0: nat, base0: nat, br0: nat,
                       ghost st: RunState, ghost log0: seq<Token>, ghost head0: seq<Token>, ghost pend0: seq<bool>)
      returns (r: nat, base: nat, br: nat, ghost head: seq<Token>, ghost pend: seq<bool>)
      requires Valid() && RunOk(st) && Emitted(st, log0, head0)
      requires |a| == |z| == 64 && k <= band.se && a[k] == temp != 0 && sign == if z[k] < 0 then 0 else 1
      requires base0 == be && base0 + br0 < MAX_CORR_BITS && pend0 == bitBuffer[base0..base0 + br0]
      modifies this`out, this`counts, this`log, this`eobrun, this`be, bitBuffer
      ensures Valid() && Emitted(st, log0, head) && base == be <= old(be) && br <= br0 + 1
      ensures pend == bitBuffer[base..base + br]
      ensures Before(head0, RefineCode(band, z, a, eob, k, r0, pend0)) == Before(head, RefineCode(band, z, a, eob, k + 1, r, pend))
    {
      hide RefineCode, EobTokens, BitTokens, Ledger, Before;
      r, base, br, head, pend := EmitZrls(z, a, eob, k, r0, base0, br0, st, log0, head0, pend0);
      CodeStep(band, z, a, eob, k, r, pend);
      if temp > 1 {
        AppendBit(base, br, temp % 2 == 1);
        br := br + 1;
        pend := pend + [temp % 2 == 1];
      } else {
        EmitNew(r, sign, base, br, st, log0, head);
        ghost var more := [Sym(band.tbl, r * 16 + 1), Bits(sign, 1)] + BitTokens(pend);
        BeforeTwice(head, more, RefineCode(band, z, a, eob, k + 1, 0, []));
        head := head + more;
        base, br, r, pend := 0, 0, 0, [];
      }
    }

    /** The coefficient at k: a zero only counts. */
    method CodePosition(ghost z: seq<int>, ghost a: seq<nat>, eob: nat, k: nat, temp: nat, sign: nat, r0: nat, base0: nat, br0: nat,
                        ghost st: RunState, ghost log0: seq<Token>, ghost head0: seq<Token>, ghost pend0: seq<bool>)
      returns (r: nat, base: nat, br: nat, ghost head: seq<Token>, ghost pend: seq<bool>)
      requires Valid() && RunOk(st) && Emitted(st, log0, head0)
      requires |a| == |z| == 64 && k <= band.se && a[k] == temp && sign == if z[k] < 0 then 0 else 1
      requires base0 == be && base0 + br0 < MAX_CORR_BITS && pend0 == bitBuffer[base0..base0 + br0]
      modifies this`out, this`counts, this`log, this`eobrun, this`be, bitBuffer
      ensures Valid() && Emitted(st, log0, head) && base == be <= old(be) && br <= br0 + 1
      ensures pend == bitBuffer[base..base + br]
      ensures Before(head0, RefineCode(band, z, a, eob, k, r0, pend0)) == Before(head, RefineCode(band, z, a, eob, k + 1, r, pend))
    {
      hide RefineCode, EobTokens, BitTokens, Ledger, Before, Emitted;
      if temp == 0 {
        CodeStep(band, z, a, eob, k, r0, pend0);
        r, base, br, head, pend := r0 + 1, base0, br0, head0, pend0;
      } else {
        r, base, br, head, pend := CodeNonzero(z, a, eob, k, temp, sign, r0, base0, br0, st, log0, head0, pend0);
      }
    }

    method SignBit(block: array<int>, order: seq<nat>, k: nat) returns (sign: nat)
      requires block.Length == 64 && IsZigzag(order) && k < 64
      ensures sign == if Zig(block[..], order)[k] < 0 then 0 else 1
    {
      sign := if block[order[k]] < 0 then 0 else 1;
    }

    /** The main pass of a refinement block. */
    method MainPass(block: array<int>, order: seq<nat>, absvalues: array<nat>, eob: nat, ghost st: RunState, ghost log0: seq<Token>)
      returns (r: nat, br: nat, ghost head: seq<Token>)
      requires ReadyFor(block, order) && st == State() && log0 == log && absvalues.Length == 64
      requires forall x :: band.ss <= x <= band.se ==> absvalues[x] == Magnitude(Zig(block[..], order)[x], band.al)
      requires eob == LastNew(Magnitudes(Zig(block[..], order), band.al), band.ss, band.se + 1)
      modifies this`out, this`counts, this`log, this`eobrun, this`be, bitBuffer
      ensures Valid() && Emitted(st, log0, head) && be + br <= MAX_CORR_BITS
      ensures BlockRefinement(band, Zig(block[..], order)) == BlockCode(head, r > 0 || br > 0, bitBuffer[be..be + br])
    {
      NothingEmitted();
      ghost var z := Zig(block[..], order);
      ghost var a := Magnitudes(z, band.al);
      ghost var all := BlockRefinement(band, z);
      assert all == RefineCode(band, z, a, eob, band.ss, 0, []);
      hide BlockRefinement, RefineCode, Ledger, LastNew, Magnitude, Magnitudes, Emitted, Before, IsZigzag, Zig, EobTokens, BitTokens, Clamp, RunOk;
      ghost var pend: seq<bool> := [];
      var base: nat, k: nat := be, band.ss;
      r, br, head := 0, 0, [];
      BeforeNothing(all);
      while k <= band.se
        invariant band.ss <= k <= band.se + 1 && Valid() && Emitted(st, log0, head)
        invariant base == be <= MAX_CORR_BITS - 64 + 1 && br <= k - band.ss
        invariant pend == bitBuffer[base..base + br]
        invariant all == Before(head, RefineCode(band, z, a, eob, k, r, pend))
      {
        var sign := SignBit(block, order, k);
        r, base, br, head, pend := CodePosition(z, a, eob, k, absvalues[k], sign, r, base, br, st, log0, head, pend);
        k := k + 1;
      }
      CodeStep(band, z, a, eob, k, r, pend);
      BeforeEnd(head, r > 0 || pend != [], pend);
    }

    /** One block of an AC refinement scan.  BR bits are pending at bitBuffer[base..]; while
        the run is pending they follow its BE bits, afterwards they start the buffer. */
    method EncodeRefine(block: array<int>, order: seq<nat>)
      requires ReadyFor(block, order)
      modifies this`out, this`counts, this`log, this`eobrun, this`be, bitBuffer
      ensures ReadyFor(block, order)
      ensures var c := BlockRefinement(band, Zig(block[..], order));
        log == old(log) + StepTokens(band.tbl, old(State()), c) && State() == StepState(old(State()), c)
    {
      hide Emitted, BlockRefinement, StepTokens, StepState, Ledger;
      ghost var st, log0, all := State(), log, BlockRefinement(band, Zig(block[..], order));
      var absvalues, eob := PrePass(block, order);
      var r, br, head := MainPass(block, order, absvalues, eob, st, log0);
      FinishBlock(r > 0 || br > 0, br, st, log0, all);
    }

    /** One MCU of an AC scan: the restart marker if one is due, the block, and the restart
        counter.  False where the source reports a coefficient out of range. */
    method EncodeMcu(block: array<int>, order: seq<nat>) returns (ok: bool)
      requires ReadyFor(block, order)
      modifies this`out, this`counts, this`log, this`eobrun, this`be, this`restartsToGo, this`nextRestartNum, bitBuffer
      ensures ok <==> (band.ah == 0 ==> InRange(band, Zig(block[..], order)))
      ensures ok ==> ReadyFor(block, order)
      ensures ok ==>
        var due := restartInterval > 0 && old(restartsToGo) == 0;
        var st, c := if due then RunState(0, []) else old(State()), AC.CodeOf(band, Zig(block[..], order));
        && log == Marked(band.tbl, due, old(log), old(State()), old(nextRestartNum)) + StepTokens(band.tbl, st, c)
        && State() == StepState(st, c)
        && restartsToGo == TogoAfter(restartInterval, old(restartsToGo))
        && nextRestartNum == if due then (old(nextRestartNum) + 1) % 8 else old(nextRestartNum)
    {
      hide Ledger, StepTokens, StepState, EobTokens, BlockRefinement, FirstCode, InRange;
      if restartInterval > 0 && restartsToGo == 0 {
        EmitRestart(nextRestartNum);
      }
      if band.ah == 0 {
        ok := EncodeFirst(block, order);
        if !ok {
          return;
        }
      } else {
        EncodeRefine(block, order);
        ok := true;
      }
      if restartInterval > 0 {
        if restartsToGo == 0 {
          restartsToGo := restartInterval;
          nextRestartNum := (nextRestartNum + 1) % 8;
        }
        restartsToGo := restartsToGo - 1;
      }
    }

    /** The next MCU of a scan of which `codes` are still to come. */
    method EncodeNext(block: array<int>, order: seq<nat>, ghost codes: seq<BlockCode>) returns (ok: bool)
      requires ReadyFor(block, order) && codes != [] && codes[0] == AC.CodeOf(band, View(block, order))
      modifies this`out, this`counts, this`log, this`eobrun, this`be, this`restartsToGo, this`nextRestartNum, bitBuffer
      ensures ok <==> (band.ah == 0 ==> InRange(band, View(block, order)))
      ensures ok ==> ReadyFor(block, order) && Owed(codes[1..]) == old(Owed(codes))
    {
      hide Ledger, StepTokens, StepState, EobTokens, RunTokens, WithRestarts, AC.CodeOf, InRange, RunOk, IsZigzag;
      McuAhead(band.tbl, log, State(), codes, restartInterval, restartsToGo, nextRestartNum);
      ok := EncodeMcu(block, order);
    }

    /** A whole AC scan, block by block, then finish_pass_phuff. */
    method EncodeScan(blocks: seq<array<int>>, order: seq<nat>) returns (ok: bool)
      requires Valid() && IsZigzag(order) && log == [] && State() == RunState(0, [])
      requires restartsToGo == restartInterval && nextRestartNum == 0
      requires forall i :: 0 <= i < |blocks| ==> blocks[i].Length == 64
      modifies this`out, this`counts, this`log, this`eobrun, this`be, this`restartsToGo, this`nextRestartNum, bitBuffer
      ensures ok <==> (band.ah == 0 ==> forall i :: 0 <= i < |blocks| ==> InRange(band, View(blocks[i], order)))
      ensures ok ==> Valid() && log == AC.PassTokens(band, ViewAll(blocks, order), restartInterval)
    {
      hide Ledger, RunTokens, WithRestarts, AC.CodeOf, InRange, Owed, View, ViewAll, AC.PassTokens, IsZigzag;
      ghost var zs := ViewAll(blocks, order);
      ghost var all, codes := AC.PassTokens(band, zs, restartInterval), AC.CodesOf(band, zs);
      OwedAtFirst(zs);
      assert codes[0..] == codes;
      var i := 0;
      while i < |blocks|
        invariant 0 <= i <= |blocks| && Valid() && RunOk(State())
        invariant band.ah == 0 ==> forall j :: 0 <= j < i ==> InRange(band, View(blocks[j], order))
        invariant all == Owed(codes[i..])
      {
        assert codes[i..][0] == AC.CodeOf(band, zs[i]);
        ok := EncodeNext(blocks[i], order, codes[i..]);
        if !ok {
          return;
        }
        assert codes[i..][1..] == codes[i + 1..];
        i := i + 1;
      }
      assert codes[i..] == [];
      OwedAtLast();
      EmitEobrun();
      ok := true;
    }

    lemma {:induction false} OwedAtFirst(zs: seq<seq<int>>)
      requires be <= bitBuffer.Length && log == [] && State() == RunState(0, []) && BandOk(band)
      requires restartsToGo == restartInterval && nextRestartNum == 0
      requires forall i :: 0 <= i < |zs| ==> |zs[i]| == 64
      ensures Owed(AC.CodesOf(band, zs)) == AC.PassTokens(band, zs, restartInterval)
    {
      hide RunTokens, WithRestarts, AC.CodesOf;
      assert [] + AC.PassTokens(band, zs, restartInterval) == AC.PassTokens(band, zs, restartInterval);
    }

    lemma {:induction false} OwedAtLast()
      requires be <= bitBuffer.Length
      ensures Owed([]) == log + EobTokens(band.tbl, eobrun, bitBuffer[..be])
    {
      hide EobTokens;
      NothingAhead(band.tbl, State(), restartInterval, restartsToGo, nextRestartNum);
    }

    /** The log with all that is still to come. */
    ghost function Owed(codes: seq<BlockCode>): seq<Token>
      reads this, bitBuffer
      requires be <= bitBuffer.Length
    {
      log + RunTokens(band.tbl, State(), WithRestarts(codes, restartInterval, restartsToGo, nextRestartNum))
    }

    lemma {:induction false} NothingEmitted()
      requires be <= bitBuffer.Length
      ensures Emitted(State(), log, [])
    {
    }

    /** BR_buffer[BR] = bit. */
    method AppendBit(base: nat, br: nat, bit: bool)
      requires base + br < bitBuffer.Length
      modifies bitBuffer
      ensures bitBuffer[..base] == old(bitBuffer[..base])
      ensures bitBuffer[base..base + br + 1] == old(bitBuffer[base..base + br]) + [bit]
    {
      bitBuffer[base + br] := bit;
    }
  }

  /** The log after a restart marker, when one is due. */
  function Marked(tbl: Table, due: bool, log: seq<Token>, st: RunState, num: nat): seq<Token> {
    if due then log + EobTokens(tbl, st.run, st.corr) + [Rst(num)] else log
  }

  /** One MCU in the token stream of a scan. */
  lemma {:induction false} McuAhead(tbl: Table, log: seq<Token>, st: RunState, codes: seq<BlockCode>, interval: nat, togo: nat, num: nat)
    requires codes != []
    ensures var due := interval > 0 && togo == 0;
      var st0 := if due then RunState(0, []) else st;
      log + RunTokens(tbl, st, WithRestarts(codes, interval, togo, num))
      == Marked(tbl, due, log, st, num) + StepTokens(tbl, st0, codes[0])
         + RunTokens(tbl, StepState(st0, codes[0]), WithRestarts(codes[1..], interval, TogoAfter(interval, togo), if due then (num + 1) % 8 else num))
    decreases togo == 0
  {
    hide EobTokens, StepTokens, StepState;
    if interval > 0 && togo == 0 {
      McuAhead(tbl, [], RunState(0, []), codes, interval, interval, (num + 1) % 8);
      var evs := WithRestarts(codes, interval, interval, (num + 1) % 8);
      assert ([Restart(num)] + evs)[1..] == evs;
      var e, later := EobTokens(tbl, st.run, st.corr), RunTokens(tbl, RunState(0, []), evs);
      Assoc3(log, e + [Rst(num)], later);
      Assoc3(log, e, [Rst(num)]);
      var x, y := StepTokens(tbl, RunState(0, []), codes[0]), RunTokens(tbl, StepState(RunState(0, []), codes[0]), evs[1..]);
      Assoc3(Marked(tbl, true, log, st, num), x, y);
      assert [] + later == later && ([] + x) + y == x + y;
    } else {
      var evs := WithRestarts(codes, interval, togo, num);
      assert evs[1..] == WithRestarts(codes[1..], interval, TogoAfter(interval, togo), num);
      Assoc3(log, StepTokens(tbl, st, codes[0]), RunTokens(tbl, StepState(st, codes[0]), evs[1..]));
    }
  }

  lemma {:induction false} NothingAhead(tbl: Table, st: RunState, interval: nat, togo: nat, num: nat)
    ensures RunTokens(tbl, st, WithRestarts([], interval, togo, num)) == EobTokens(tbl, st.run, st.corr)
  {
  }

  /** Optimal coding runs every scan twice.  The counters of the statistics pass equal the
      number of times the output pass emits each symbol, for the same blocks and restarts. */
  method CountThenEncode(b: Band, interval: nat, blocks: seq<array<int>>, order: seq<nat>)
    returns (ok: bool, counts: map<Token, nat>, out: seq<Token>)
    requires BandOk(b) && IsZigzag(order) && forall i :: 0 <= i < |blocks| ==> blocks[i].Length == 64
    ensures ok <==> (b.ah == 0 ==> forall i :: 0 <= i < |blocks| ==> InRange(b, View(blocks[i], order)))
    ensures ok ==> out == AC.PassTokens(b, ViewAll(blocks, order), interval)
    ensures ok ==> forall t: Token :: t.Sym? ==> (if t in counts then counts[t] else 0) == multiset(out)[t]
  {
    hide InRange, AC.PassTokens, Zig, IsZigzag, BandOk;
    var statistics := new Encoder(b, true, interval);
    ok := statistics.EncodeScan(blocks, order);
    counts, out := statistics.counts, [];
    if ok {
      var output := new Encoder(b, false, interval);
      ok := output.EncodeScan(blocks, order);
      out := output.out;
    }
  }

  lemma {:induction false} BeforeEnd(head: seq<Token>, eob: bool, tail: seq<bool>)
    ensures Before(head, BlockCode([], eob, tail)) == BlockCode(head, eob, tail)
  {
    assert head + [] == head;
  }

  lemma {:induction false} BeforeNothing(c: BlockCode)
    ensures Before([], c) == c
  {
    assert [] + c.head == c.head;
  }

  /** while ((temp >>= 1)) nbits++; */
  method RunBits(run: nat) returns (nbits: nat)
    requires run > 0
    ensures nbits == NBits(run) - 1
  {
    var temp: nat := run / 2;
    nbits := 0;
    while temp != 0
      invariant nbits + NBits(temp) == NBits(run) - 1
    {
      nbits := nbits + 1;
      temp := temp / 2;
    }
  }

  lemma {:induction false} EobTokensParts(tbl: Table, run: nat, corr: seq<bool>, log: seq<Token>)
    requires run > 0
    ensures var n := NBits(run) - 1;
      log + EobTokens(tbl, run, corr)
      == (if n != 0 then (log + [Sym(tbl, n * 16)]) + [Bits(run % Pow2(n), n)] else log + [Sym(tbl, n * 16)]) + BitTokens(corr)
  {
    hide BitTokens, NBits, Pow2;
    NBitsRange(run);
    var n := NBits(run) - 1;
    var sym, raw := [Sym(tbl, n * 16)], if n > 0 then [Bits(run % Pow2(n), n)] else [];
    Assoc3(log, sym, raw);
    Assoc3(log, sym + raw, BitTokens(corr));
    assert n == 0 ==> sym + raw == sym;
  }

  /** The point transform of an AC coefficient: magnitude, and the value whose low bits are sent. */
  method Transform(v: int, al: nat) returns (temp: nat, temp2: int)
    ensures temp == Abs(AcPoint(v, al))
    ensures temp != 0 ==> temp2 == if AcPoint(v, al) < 0 then AcPoint(v, al) - 1 else AcPoint(v, al)
  {
    hide Pow2;
    if v < 0 {
      temp := ShiftRight(-v, al);
      temp2 := -1 - temp;
    } else {
      temp := ShiftRight(v, al);
      temp2 := temp;
    }
  }

  lemma {:induction false} ZrlsMore(tbl: Table, n: nat)
    ensures n > 0 ==> Zrls(tbl, n) == Zrls(tbl, n - 1) + [Sym(tbl, ZRL)]
  {
  }

  lemma {:induction false} FirstCodeEnd(b: Band, z: seq<int>, r: nat)
    requires b.se < |z|
    ensures FirstCode(b, z, b.se + 1, r) == BlockCode([], r > 0, [])
  {
  }

  lemma {:induction false} BeforeTwice(a: seq<Token>, b: seq<Token>, c: BlockCode)
    ensures Before(a, Before(b, c)) == Before(a + b, c)
  {
    Assoc3(a, b, c.head);
  }

  lemma {:induction false} StepFromHead(tbl: Table, log0: seq<Token>, st: RunState, c: BlockCode)
    ensures log0 + StepTokens(tbl, st, c)
         == (if c.head == [] then log0 else log0 + EobTokens(tbl, st.run, st.corr) + c.head)
            + (if ForcedOut(st, c) then EobTokens(tbl, Joined(st, c).run, Joined(st, c).corr) else [])
  {
    hide EobTokens, ForcedOut, Joined;
    var e := EobTokens(tbl, st.run, st.corr);
    var forced := if ForcedOut(st, c) then EobTokens(tbl, Joined(st, c).run, Joined(st, c).corr) else [];
    Assoc3(log0, e, c.head);
    Assoc3(log0, e + c.head, forced);
    assert [] + forced == forced;
  }

  lemma {:induction false} FirstCodeStep(b: Band, z: seq<int>, k: nat, r: nat)
    requires k <= b.se < |z|
    ensures var p := AcPoint(z[k], b.al);
      FirstCode(b, z, k, r) == if p == 0 then FirstCode(b, z, k + 1, r + 1)
                               else Before(Zrls(b.tbl, r / 16) + ValueTokens(b.tbl, r % 16, p), FirstCode(b, z, k + 1, 0))
  {
  }
}
