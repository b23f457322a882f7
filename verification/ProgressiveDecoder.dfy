// The progressive decoder as the source runs it (jdphuff.c): blocks are changed in place
// and in natural order, the input position and EOB counter are committed only when an MCU
// is complete, and a refinement that runs out of input takes back its new coefficients.
module ProgressiveDecoder {
  import opened Arith
  import opened Coefficients
  import opened Tokens
  import opened AcRefine
  import opened AcFirst
  import AC = AcScan

  /** How an MCU call ends: done, out of input, or a token of the wrong kind. */
  datatype Verdict = Done | Suspended | Garbled

  /** A correction bit for the coefficient at k. */
  method ApplyBit(block: array<int>, order: seq<nat>, k: nat, bit: nat, al: nat)
    requires Fits(block, order) && k < 64
    modifies block
    ensures View(block, order) == old(View(block, order))[k := Correct(old(View(block, order))[k], bit, al)]
  {
    var v := block[order[k]];
    var p1: int := Pow2(al);
    ghost var z := View(block, order);
    assert z[k] == v;
    if bit != 0 {
      if (v / Pow2(al)) % 2 == 0 {
        if v >= 0 {
          Store(block, order, k, v + p1);
        } else {
          Store(block, order, k, v - p1);
        }
        return;
      }
    }
    assert z[k := v] == z;
  }

  /** The inner loop of refinement: over nonzero coefficients, which take a bit each, and r
      zero ones. */
  method Advance(b: Band, block: array<int>, order: seq<nat>, ts0: seq<Token>, k0: nat, r0: nat)
    returns (verdict: Verdict, ts: seq<Token>, k: nat)
    requires BandOk(b) && Fits(block, order) && k0 <= b.se
    modifies block
    ensures verdict == Done ==> k >= k0 && k <= b.se + 1 && |ts| <= |ts0| && (ByteSymbols(ts0) ==> ByteSymbols(ts))
    ensures match Skip(b, ts0, k0, r0, old(View(block, order)))
      case SkipTo(ts1, k1, d1) => verdict == Done && ts == ts1 && k == k1 && View(block, order) == d1
      case SkipStarved(d1) => verdict == Suspended && View(block, order) == d1
      case SkipGarbled => verdict == Garbled
  {
    hide Correct, View, IsZigzag, Skip;
    var r: int := r0;
    ts, k := ts0, k0;
    while true
      invariant k0 <= k <= b.se && r >= 0 && |ts| <= |ts0| && (ByteSymbols(ts0) ==> ByteSymbols(ts))
      invariant Skip(b, ts0, k0, r0, old(View(block, order))) == Skip(b, ts, k, r, View(block, order))
      decreases b.se - k
    {
      SkipUnfold(b, ts, k, r, View(block, order));
      var zero := IsZero(block, order, k);
      if !zero {
        match ReadBits(ts, 1)
        case NoData =>
          return Suspended, ts, k;
        case WrongKind =>
          return Garbled, ts, k;
        case Got(v, rest) =>
          ApplyBit(block, order, k, v, b.al);
          ts := rest;
      } else {
        r := r - 1;
        if r < 0 {
          break;
        }
      }
      k := k + 1;
      if k > b.se {
        SkipPast(b, ts, k, r, View(block, order));
        break;
      }
    }
    verdict := Done;
  }

  method IsZero(block: array<int>, order: seq<nat>, k: nat) returns (zero: bool)
    requires Fits(block, order) && k < 64
    ensures zero <==> View(block, order)[k] == 0
  {
    zero := block[order[k]] == 0;
  }

  lemma {:induction false} SkipUnfold(b: Band, ts: seq<Token>, k: nat, r: nat, d: seq<int>)
    requires k <= b.se < |d|
    ensures Skip(b, ts, k, r, d) ==
      (if d[k] != 0 then
        match ReadBits(ts, 1)
        case NoData => SkipStarved(d)
        case WrongKind => SkipGarbled
        case Got(v, rest) => Skip(b, rest, k + 1, r, d[k := Correct(d[k], v, b.al)])
      else if r == 0 then SkipTo(ts, k, d)
      else Skip(b, ts, k + 1, r - 1, d))
  {
    hide Correct;
  }

  lemma {:induction false} SkipPast(b: Band, ts: seq<Token>, k: nat, r: nat, d: seq<int>)
    requires b.se < k && b.se < |d|
    ensures Skip(b, ts, k, r, d) == SkipTo(ts, k, d)
  {
  }

  /** A zigzag list of positions as the source keeps it, in natural order. */
  ghost predicate Noted(newnzPos: array<nat>, num: nat, newnz: seq<nat>, order: seq<nat>)
    reads newnzPos
  {
    && newnzPos.Length == 64 && IsZigzag(order) && InBlock(newnz) && num == |newnz| <= 64
    && forall i :: 0 <= i < num ==> newnz[i] < 64 && newnzPos[i] == order[newnz[i]]
  }

  /** Label `undoit`: the newly nonzero coefficients become zero again. */
  method UndoNew(block: array<int>, order: seq<nat>, newnzPos: array<nat>, num0: nat, ghost newnz: seq<nat>)
    requires Fits(block, order) && Noted(newnzPos, num0, newnz, order)
    modifies block
    ensures View(block, order) == Undo(old(View(block, order)), newnz)
  {
    hide Undo, View, IsZigzag;
    assert newnz[..num0] == newnz;
    var num: nat := num0;
    while num > 0
      invariant num <= num0 && newnzPos[..] == old(newnzPos[..])
      invariant Undo(View(block, order), newnz[..num]) == Undo(old(View(block, order)), newnz)
    {
      num := num - 1;
      assert newnz[..num + 1][..num] == newnz[..num];
      UndoLast(View(block, order), newnz[..num + 1]);
      ZeroAt(block, order, newnzPos[..][num], newnz[num]);
    }
    UndoNone(View(block, order), newnz[..0]);
  }

  method ZeroAt(block: array<int>, order: seq<nat>, pos: nat, ghost k: nat)
    requires Fits(block, order) && k < 64 && pos == order[k]
    modifies block
    ensures View(block, order) == old(View(block, order))[k := 0]
  {
    ZigUpdate(block[..], order, k, 0);
    block[pos] := 0;
    assert block[..] == old(block[..])[order[k] := 0];
  }

  lemma {:induction false} UndoLast(d: seq<int>, newnz: seq<nat>)
    requires newnz != [] && forall i :: 0 <= i < |newnz| ==> newnz[i] < |d|
    ensures var n := |newnz| - 1; Undo(d, newnz) == Undo(d[newnz[n] := 0], newnz[..n])
  {
  }

  lemma {:induction false} UndoNone(d: seq<int>, newnz: seq<nat>)
    requires newnz == []
    ensures Undo(d, newnz) == d
  {
  }

  class Decoder {
    const band: Band
    const restartInterval: nat
    /** Tokens received and not yet consumed by a completed MCU. */
    var input: seq<Token>
    var eobrun: nat
    var restartsToGo: nat
    var nextRestartNum: nat

    constructor (b: Band, interval: nat)
      requires BandOk(b)
      ensures band == b && restartInterval == interval && input == [] && eobrun == 0
      ensures restartsToGo == interval && nextRestartNum == 0
    {
      band, restartInterval := b, interval;
      input, eobrun := [], 0;
      restartsToGo, nextRestartNum := interval, 0;
    }

    /** decode_mcu_AC_first, after the restart check. */
    method DecodeFirst(block: array<int>, order: seq<nat>) returns (verdict: Verdict)
      requires BandOk(band) && band.ah == 0 && Fits(block, order) && ByteSymbols(input)
      modifies this`input, this`eobrun, block
      ensures ByteSymbols(input)
      ensures match AC.DecodeBlock(band, old(input), old(eobrun), old(View(block, order)))
        case BlockDone(ts, run, d) => verdict == Done && input == ts && eobrun == run && View(block, order) == d
        case BlockStarved(d) => verdict == Suspended && input == old(input) && eobrun == old(eobrun) && View(block, order) == d
        case BlockGarbled => verdict == Garbled
    {
      assert Pow2(0) == 1;
      hide View, IsZigzag, FirstLoop, HuffExtend, Pow2;
      var run, ts := eobrun, input;
      if run > 0 {
        run := run - 1;
      } else {
        var k: nat := band.ss;
        ghost var d0 := View(block, order);
        while k <= band.se
          invariant FirstLoop(band, input, band.ss, d0) == FirstLoop(band, ts, k, View(block, order))
          invariant ByteSymbols(ts) && run == 0 && input == old(input) && eobrun == old(eobrun)
          decreases |ts|
        {
          FirstLoopUnfold(band, ts, k, View(block, order));
          match ReadSym(ts, band.tbl)
          case NoSym =>
            return Suspended;
          case WrongSym =>
            return Garbled;
          case GotSym(s, ts1) =>
            var r, n := s / 16, s % 16;
            if n != 0 {
              k := k + r;
              match ReadBits(ts1, n)
              case NoData =>
                return Suspended;
              case WrongKind =>
                return Garbled;
              case Got(v, ts2) =>
                Store(block, order, k, HuffExtend(v, n) * Pow2(band.al));
                ts := ts2;
            } else if r == 15 {
              k := k + 15;
              ts := ts1;
            } else {
              run := Pow2(r);
              ts := ts1;
              if r != 0 {
                match ReadBits(ts1, r)
                case NoData =>
                  return Suspended;
                case WrongKind =>
                  return Garbled;
                case Got(v, ts2) =>
                  run := run + v;
                  ts := ts2;
              }
              run := run - 1;
              break;
            }
            k := k + 1;
        }
        if run == 0 && k > band.se {
          FirstLoopPast(band, ts, k, View(block, order));
        }
      }
      input, eobrun := ts, run;
      verdict := Done;
    }

    /** Reading a symbol of a refinement scan and what belongs to it: a sign bit, or the low
        bits of an EOB run. */
    method ReadCode(ts0: seq<Token>) returns (verdict: Verdict, ts: seq<Token>, r: nat, s: int, run: nat)
      requires ByteSymbols(ts0)
      ensures verdict == Done ==> ByteSymbols(ts) && |ts| < |ts0| && r <= 15
      ensures match ReadSym(ts0, band.tbl)
        case NoSym => verdict == Suspended
        case WrongSym => verdict == Garbled
        case GotSym(symbol, ts1) =>
          if symbol % 16 != 0 then
            match ReadBits(ts1, 1)
            case NoData => verdict == Suspended
            case WrongKind => verdict == Garbled
            case Got(v, ts2) => verdict == Done && ts == ts2 && r == symbol / 16 && s == NewValue(v, band.al) && run == 0
          else if symbol / 16 == 15 then verdict == Done && ts == ts1 && r == 15 && s == 0 && run == 0
          else if symbol / 16 == 0 then verdict == Done && ts == ts1 && s == 0 && run == 1
          else
            match ReadBits(ts1, symbol / 16)
            case NoData => verdict == Suspended
            case WrongKind => verdict == Garbled
            case Got(v, ts2) => verdict == Done && ts == ts2 && s == 0 && run == Pow2(symbol / 16) + v
    {
      assert Pow2(0) == 1;
      hide Pow2;
      verdict, ts, r, s, run := Done, ts0, 0, 0, 0;
      match ReadSym(ts0, band.tbl)
      case NoSym =>
        verdict := Suspended;
      case WrongSym =>
        verdict := Garbled;
      case GotSym(symbol, ts1) =>
        r, s, ts := symbol / 16, symbol % 16, ts1;
        if s != 0 {
          match ReadBits(ts1, 1)
          case NoData =>
            verdict := Suspended;
          case WrongKind =>
            verdict := Garbled;
          case Got(v, ts2) =>
            var p1: int := Pow2(band.al);
            s := if v != 0 then p1 else -p1;
            ts := ts2;
        } else if r != 15 {
          run := Pow2(r);
          if r != 0 {
            match ReadBits(ts1, r)
            case NoData =>
              verdict := Suspended;
            case WrongKind =>
              verdict := Garbled;
            case Got(v, ts2) =>
              run := run + v;
              ts := ts2;
          }
        }
    }

    /** One round of the loop below; `more` says that the loop goes on. */
    method RefineRound(block: array<int>, order: seq<nat>, newnzPos: array<nat>, ts0: seq<Token>, k0: nat, num0: nat, ghost newnz0: seq<nat>)
      returns (verdict: Verdict, more: bool, ts: seq<Token>, k: nat, run: nat, num: nat, ghost newnz: seq<nat>)
      requires BandOk(band) && Fits(block, order) && ByteSymbols(ts0) && k0 <= band.se
      requires Noted(newnzPos, num0, newnz0, order) && num0 <= 62
      modifies block, newnzPos
      ensures Noted(newnzPos, num, newnz, order) && num <= num0 + 1
      ensures verdict == Done ==> ByteSymbols(ts)
      ensures verdict == Done && more ==> |ts| < |ts0| && k > k0
      ensures match LoopRound(band, ts0, k0, old(View(block, order)), newnz0)
        case Next(ts1, k1, d1, newnz1) =>
          verdict == Done && more && ts == ts1 && k == k1 && run == 0 && newnz == newnz1 && View(block, order) == d1
        case Halt(LoopDone(ts1, k1, run1, d1, newnz1)) =>
          verdict == Done && !more && ts == ts1 && k == k1 && run == run1 && newnz == newnz1 && View(block, order) == d1
        case Halt(LoopStarved(d1)) => verdict == Suspended && Undo(View(block, order), newnz) == d1
        case Halt(LoopGarbled) => verdict == Garbled
    {
      NewValueNonzero(band.al);
      hide View, IsZigzag, Pow2, Skip, Undo, NewValue;
      more, k, num, newnz := false, k0, num0, newnz0;
      var r, s;
      verdict, ts, r, s, run := ReadCode(ts0);
      if verdict != Done || run > 0 {
        return;
      }
      verdict, ts, k := Advance(band, block, order, ts, k0, r);
      if verdict != Done {
        return;
      }
      if s != 0 {
        Store(block, order, k, s);
        ClampSame(order, k);
        newnzPos[num] := order[k];
        newnz := newnz + [Clamp(k)];
        num := num + 1;
      }
      more, k := true, k + 1;
    }

    /** The loop of decode_mcu_AC_refine taken when no EOB run is pending. */
    method RefineNew(block: array<int>, order: seq<nat>, newnzPos: array<nat>)
      returns (verdict: Verdict, ts: seq<Token>, k: nat, run: nat, num: nat, ghost newnz: seq<nat>)
      requires BandOk(band) && Fits(block, order) && newnzPos.Length == 64 && ByteSymbols(input)
      modifies block, newnzPos
      ensures Noted(newnzPos, num, newnz, order) && (verdict == Done ==> ByteSymbols(ts))
      ensures match RefineLoop(band, input, band.ss, old(View(block, order)), [])
        case LoopDone(ts1, k1, run1, d1, newnz1) =>
          verdict == Done && ts == ts1 && k == k1 && run == run1 && newnz == newnz1 && View(block, order) == d1
        case LoopStarved(d1) => verdict == Suspended && Undo(View(block, order), newnz) == d1
        case LoopGarbled => verdict == Garbled
    {
      hide View, IsZigzag, RefineLoop, LoopRound, Undo;
      ghost var d0 := View(block, order);
      ts, k, run, num, newnz := input, band.ss, 0, 0, [];
      while k <= band.se
        invariant band.ss <= k && run == 0 && num <= k - band.ss && num <= 63 && ByteSymbols(ts)
        invariant Noted(newnzPos, num, newnz, order)
        invariant RefineLoop(band, input, band.ss, d0, []) == RefineLoop(band, ts, k, View(block, order), newnz)
        decreases |ts|
      {
        LoopUnfold(band, ts, k, View(block, order), newnz);
        var more;
        verdict, more, ts, k, run, num, newnz := RefineRound(block, order, newnzPos, ts, k, num, newnz);
        if verdict != Done || !more {
          return;
        }
      }
      LoopPast(band, ts, k, View(block, order), newnz);
      verdict := Done;
    }

    /** The positions after the last new coefficient of a block that ends in an EOB. */
    method RefineRest(block: array<int>, order: seq<nat>, ts0: seq<Token>, k0: nat) returns (verdict: Verdict, ts: seq<Token>)
      requires BandOk(band) && Fits(block, order) && ByteSymbols(ts0)
      modifies block
      ensures ByteSymbols(ts)
      ensures match RefineTail(band, ts0, k0, old(View(block, order)))
        case SkipTo(ts1, _, d1) => verdict == Done && ts == ts1 && View(block, order) == d1
        case SkipStarved(d1) => verdict == Suspended && View(block, order) == d1
        case SkipGarbled => verdict == Garbled
    {
      hide View, IsZigzag, Correct;
      ts := ts0;
      var k := k0;
      while k <= band.se
        invariant ByteSymbols(ts)
        invariant RefineTail(band, ts0, k0, old(View(block, order))) == RefineTail(band, ts, k, View(block, order))
      {
        var zero := IsZero(block, order, k);
        if !zero {
          match ReadBits(ts, 1)
          case NoData =>
            return Suspended, ts;
          case WrongKind =>
            return Garbled, ts;
          case Got(v, rest) =>
            ApplyBit(block, order, k, v, band.al);
            ts := rest;
        }
        k := k + 1;
      }
      verdict := Done;
    }

    /** decode_mcu_AC_refine, after the restart check.  A suspended call keeps the correction
        bits it applied, takes back its new coefficients and commits nothing. */
    method DecodeRefinement(block: array<int>, order: seq<nat>) returns (verdict: Verdict)
      requires BandOk(band) && Fits(block, order) && ByteSymbols(input)
      modifies this`input, this`eobrun, block
      ensures ByteSymbols(input)
      ensures match DecodeRefine(band, old(input), old(eobrun), old(View(block, order)))
        case BlockDone(ts, run, d) => verdict == Done && input == ts && eobrun == run && View(block, order) == d
        case BlockStarved(d) => verdict == Suspended && input == old(input) && eobrun == old(eobrun) && View(block, order) == d
        case BlockGarbled => verdict == Garbled
    {
      hide View, IsZigzag, RefineLoop, RefineTail, Undo;
      var newnzPos := new nat[64](_ => 0);
      var run, ts, k: nat, num: nat := eobrun, input, band.ss, 0;
      ghost var newnz: seq<nat> := [];
      verdict := Done;
      UndoNone(View(block, order), []);
      if run == 0 {
        verdict, ts, k, run, num, newnz := RefineNew(block, order, newnzPos);
      }
      if verdict == Done && run > 0 {
        verdict, ts := RefineRest(block, order, ts, k);
        run := run - 1;
      }
      if verdict == Suspended {
        UndoNew(block, order, newnzPos, num, newnz);
      }
      if verdict == Done {
        input, eobrun := ts, run;
      }
    }

    /** process_restart, when the expected marker comes next.  Resynchronising after any
        other marker is not part of this model. */
    method ProcessRestart() returns (verdict: Verdict)
      modifies this`input, this`eobrun, this`restartsToGo, this`nextRestartNum
      ensures verdict == Done <==> old(input) != [] && old(input)[0] == Rst(old(nextRestartNum))
      ensures verdict == Suspended <==> old(input) == []
      ensures verdict == Done ==>
        && input == old(input)[1..] && eobrun == 0 && restartsToGo == restartInterval
        && nextRestartNum == (old(nextRestartNum) + 1) % 8
      ensures verdict != Done ==> unchanged(this)
    {
      if input == [] {
        return Suspended;
      }
      if input[0] != Rst(nextRestartNum) {
        return Garbled;
      }
      input := input[1..];
      nextRestartNum := (nextRestartNum + 1) % 8;
      eobrun := 0;
      restartsToGo := restartInterval;
      verdict := Done;
    }

    predicate Due()
      reads this
    {
      restartInterval > 0 && restartsToGo == 0
    }

    predicate Expected()
      reads this
    {
      input != [] && input[0] == Rst(nextRestartNum)
    }

    /** One MCU of an AC scan: the restart marker if one is due, then the block.  A call that
        runs out of input after the marker keeps the marker processed, and only that. */
    method DecodeMcu(block: array<int>, order: seq<nat>) returns (verdict: Verdict)
      requires BandOk(band) && Fits(block, order) && ByteSymbols(input)
      modifies this, block
      ensures ByteSymbols(input)
      ensures var due := old(Due());
        var ts0, run0 := if due && old(Expected()) then old(input)[1..] else old(input), if due then 0 else old(eobrun);
        if due && !old(Expected()) then
          verdict == (if old(input) == [] then Suspended else Garbled) && unchanged(this) && unchanged(block)
        else
          match AC.DecodeBlock(band, ts0, run0, old(View(block, order)))
          case BlockDone(ts, run, d) =>
            && verdict == Done && input == ts && eobrun == run && View(block, order) == d
            && restartsToGo == TogoAfter(restartInterval, old(restartsToGo))
            && nextRestartNum == if due then (old(nextRestartNum) + 1) % 8 else old(nextRestartNum)
          case BlockStarved(d) =>
            && verdict == Suspended && input == ts0 && eobrun == run0 && View(block, order) == d
            && restartsToGo == (if due then restartInterval else old(restartsToGo))
            && nextRestartNum == if due then (old(nextRestartNum) + 1) % 8 else old(nextRestartNum)
          case BlockGarbled => verdict == Garbled
    {
      hide View, IsZigzag, DecodeRefine, FirstLoop;
      if restartInterval > 0 {
        if restartsToGo == 0 {
          verdict := ProcessRestart();
          if verdict != Done {
            return;
          }
        }
      }
      if band.ah == 0 {
        verdict := DecodeFirst(block, order);
      } else {
        verdict := DecodeRefinement(block, order);
      }
      if verdict == Done && restartInterval > 0 {
        restartsToGo := restartsToGo - 1;
      }
    }

    /** A whole AC scan, block by block, in place. */
    method DecodeScan(blocks: seq<array<int>>, order: seq<nat>) returns (verdict: Verdict)
      requires BandOk(band) && IsZigzag(order) && ByteSymbols(input) && eobrun == 0
      requires restartsToGo == restartInterval && nextRestartNum == 0
      requires forall i :: 0 <= i < |blocks| ==> blocks[i].Length == 64
      requires forall i, j :: 0 <= i < j < |blocks| ==> blocks[i] != blocks[j]
      modifies this, set i | 0 <= i < |blocks| :: blocks[i]
      ensures match AC.DecodePass(band, old(input), old(ViewAll(blocks, order)), restartInterval)
        case Decoded(out, ts) => verdict == Done && ViewAll(blocks, order) == out && input == ts
        case Failed => verdict != Done
    {
      hide View, ViewAll, IsZigzag, BandOk, AC.DecodePass, WithRestarts, ByteSymbols, Prepend, Ahead;
      ghost var ds, whole := ViewAll(blocks, order), AC.DecodePass(band, input, ViewAll(blocks, order), restartInterval);
      AheadOfAll(ds);
      ghost var done: seq<seq<int>> := [];
      assert ds[0..] == ds;
      var i := 0;
      while i < |blocks|
        invariant 0 <= i == |done| <= |blocks| && ByteSymbols(input)
        invariant forall j :: i <= j < |blocks| ==> View(blocks[j], order) == ds[j]
        invariant forall j :: 0 <= j < i ==> View(blocks[j], order) == done[j]
        invariant whole == Prepend(done, Ahead(ds[i..]))
      {
        verdict := ScanStep(blocks[i], order, ds[i..], done);
        if verdict != Done {
          return;
        }
        assert ds[i..][1..] == ds[i + 1..];
        done := done + [View(blocks[i], order)];
        i := i + 1;
      }
      assert ds[i..] == [];
      AheadOfNone(done);
      assert ViewAll(blocks, order) == done;
      verdict := Done;
    }

    /** The next MCU of a scan of which the blocks ds are still to come. */
    method ScanStep(block: array<int>, order: seq<nat>, ghost ds: seq<seq<int>>, ghost done: seq<seq<int>>) returns (verdict: Verdict)
      requires BandOk(band) && Fits(block, order) && ByteSymbols(input) && ds != [] && ds[0] == View(block, order)
      requires forall i :: 0 <= i < |ds| ==> |ds[i]| == 64
      modifies this, block
      ensures verdict == Done ==> ByteSymbols(input)
      ensures verdict == Done ==> old(Prepend(done, Ahead(ds))) == Prepend(done + [View(block, order)], Ahead(ds[1..]))
      ensures verdict != Done ==> old(Prepend(done, Ahead(ds))) == AC.Failed
    {
      hide View, IsZigzag, AC.DecodeBlock, AC.DecodeScan, WithRestarts, AC.Cons;
      ScanAhead(band, input, eobrun, ds, restartInterval, restartsToGo, nextRestartNum);
      verdict := DecodeMcu(block, order);
      if verdict == Done {
        PrependMore(done, View(block, order), Ahead(ds[1..]));
      }
    }

    lemma {:induction false} AheadOfAll(ds: seq<seq<int>>)
      requires BandOk(band) && forall i :: 0 <= i < |ds| ==> |ds[i]| == 64
      requires eobrun == 0 && restartsToGo == restartInterval && nextRestartNum == 0
      ensures AC.DecodePass(band, input, ds, restartInterval) == Prepend([], Ahead(ds))
    {
      PrependNone(Ahead(ds));
    }

    lemma {:induction false} AheadOfNone(done: seq<seq<int>>)
      requires BandOk(band)
      ensures Prepend(done, Ahead([])) == AC.Decoded(done, input)
    {
      ScanEnds(band, input, eobrun, restartInterval, restartsToGo, nextRestartNum);
      assert done + [] == done;
    }

    /** What decoding the rest of the scan will give. */
    ghost function Ahead(ds: seq<seq<int>>): AC.ScanOut
      reads this
      requires BandOk(band) && forall i :: 0 <= i < |ds| ==> |ds[i]| == 64
    {
      AC.BlocksWithRestarts(ds, restartInterval, restartsToGo, nextRestartNum);
      AC.DecodeScan(band, input, eobrun, WithRestarts(ds, restartInterval, restartsToGo, nextRestartNum))
    }
  }

  function Prepend(done: seq<seq<int>>, o: AC.ScanOut): AC.ScanOut {
    if o.Decoded? then AC.Decoded(done + o.blocks, o.ts) else AC.Failed
  }

  lemma {:induction false} PrependNone(o: AC.ScanOut)
    ensures Prepend([], o) == o
  {
    if o.Decoded? {
      assert [] + o.blocks == o.blocks;
    }
  }

  lemma {:induction false} PrependMore(done: seq<seq<int>>, d: seq<int>, o: AC.ScanOut)
    ensures Prepend(done, AC.Cons(d, o)) == Prepend(done + [d], o)
  {
    if o.Decoded? {
      Assoc3(done, [d], o.blocks);
    }
  }

  ghost predicate EventsSized(evs: seq<Event<seq<int>>>) {
    forall i :: 0 <= i < |evs| && evs[i].Item? ==> |evs[i].x| == 64
  }

  /** One MCU in the decoding of a scan. */
  lemma {:induction false} ScanAhead(b: Band, ts: seq<Token>, run: nat, ds: seq<seq<int>>, interval: nat, togo: nat, num: nat)
    requires BandOk(b) && ds != [] && forall i :: 0 <= i < |ds| ==> |ds[i]| == 64
    ensures EventsSized(WithRestarts(ds, interval, togo, num))
    ensures var due := interval > 0 && togo == 0;
      var num1 := if due then (num + 1) % 8 else num;
      var evs1 := WithRestarts(ds[1..], interval, TogoAfter(interval, togo), num1);
      && EventsSized(evs1)
      && AC.DecodeScan(b, ts, run, WithRestarts(ds, interval, togo, num))
         == if due && (ts == [] || ts[0] != Rst(num)) then AC.Failed
            else match AC.DecodeBlock(b, if due then ts[1..] else ts, if due then 0 else run, ds[0])
              case BlockDone(ts1, run1, d1) => AC.Cons(d1, AC.DecodeScan(b, ts1, run1, evs1))
              case _ => AC.Failed
    decreases togo == 0
  {
    hide AC.DecodeBlock;
    AC.BlocksWithRestarts(ds, interval, togo, num);
    var evs := WithRestarts(ds, interval, togo, num);
    if interval > 0 && togo == 0 {
      var later := WithRestarts(ds, interval, interval, (num + 1) % 8);
      assert evs[1..] == later;
      if ts != [] && ts[0] == Rst(num) {
        ScanAhead(b, ts[1..], 0, ds, interval, interval, (num + 1) % 8);
      } else {
        AC.BlocksWithRestarts(ds[1..], interval, interval - 1, (num + 1) % 8);
      }
    } else {
      assert evs[1..] == WithRestarts(ds[1..], interval, TogoAfter(interval, togo), num);
      AC.BlocksWithRestarts(ds[1..], interval, TogoAfter(interval, togo), num);
    }
  }

  lemma {:induction false} ScanEnds(b: Band, ts: seq<Token>, run: nat, interval: nat, togo: nat, num: nat)
    requires BandOk(b)
    ensures AC.DecodeScan(b, ts, run, WithRestarts([], interval, togo, num)) == AC.Decoded([], ts)
  {
  }

  lemma {:induction false} ClampSame(order: seq<nat>, k: nat)
    requires IsZigzag(order) && k < 80
    ensures |order| == 80 && Clamp(k) < 64 && order[k] == order[Clamp(k)]
  {
  }

  lemma {:induction false} NewValueNonzero(al: nat)
    ensures forall v: nat :: NewValue(v, al) != 0
  {
  }

  /** Huffman symbols are single bytes. */
  ghost predicate ByteSymbols(ts: seq<Token>) {
    forall i :: 0 <= i < |ts| && ts[i].Sym? ==> ts[i].s < 256
  }

  lemma {:induction false} FirstLoopPast(b: Band, ts: seq<Token>, k: nat, d: seq<int>)
    requires BandOk(b) && |d| == 64 && k > b.se
    ensures FirstLoop(b, ts, k, d) == FirstDone(ts, 0, d)
  {
  }

  lemma {:induction false} FirstLoopUnfold(b: Band, ts: seq<Token>, k: nat, d: seq<int>)
    requires BandOk(b) && |d| == 64 && k <= b.se
    ensures FirstLoop(b, ts, k, d) ==
      match ReadSym(ts, b.tbl)
      case NoSym => FirstStarved(d)
      case WrongSym => FirstGarbled
      case GotSym(s, ts1) =>
        var r, n := s / 16, s % 16;
        if n != 0 then
          match ReadBits(ts1, n)
          case NoData => FirstStarved(d)
          case WrongKind => FirstGarbled
          case Got(v, ts2) => FirstLoop(b, ts2, k + r + 1, d[Clamp(k + r) := HuffExtend(v, n) * Pow2(b.al)])
        else if r == 15 then FirstLoop(b, ts1, k + 16, d)
        else if r == 0 then FirstDone(ts1, 0, d)
        else match ReadBits(ts1, r)
          case NoData => FirstStarved(d)
          case WrongKind => FirstGarbled
          case Got(v, ts2) => FirstDone(ts2, Pow2(r) + v - 1, d)
  {
  }

  lemma {:induction false} LoopPast(b: Band, ts: seq<Token>, k: nat, d: seq<int>, newnz: seq<nat>)
    requires BandOk(b) && |d| == 64 && InBlock(newnz) && k > b.se
    ensures RefineLoop(b, ts, k, d, newnz) == LoopDone(ts, k, 0, d, newnz)
  {
  }

  lemma {:induction false} LoopUnfold(b: Band, ts: seq<Token>, k: nat, d: seq<int>, newnz: seq<nat>)
    requires BandOk(b) && |d| == 64 && InBlock(newnz)
    ensures RefineLoop(b, ts, k, d, newnz) ==
      match LoopRound(b, ts, k, d, newnz)
      case Halt(o) => o
      case Next(ts1, k1, d1, newnz1) => RefineLoop(b, ts1, k1, d1, newnz1)
  {
    hide LoopRound;
  }
}
