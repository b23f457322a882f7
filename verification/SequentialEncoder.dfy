// The sequential encoder as the source runs it (jchuff.c): one object whose bit buffer,
// predictions and restart counter change from MCU to MCU.
module SequentialEncoder {
  import opened Arith
  import opened BitStrings
  import opened BitPacking
  import opened Coefficients
  import opened Tokens
  import opened AcFirst
  import opened AcRefine
  import opened HuffmanCodes
  import opened DerivedTables
  import opened SequentialScan
  import opened SequentialStream
  import D = DcScan
  import W = BitWriter

  ghost function UnitOf(r: Ref, order: seq<nat>): (u: Unit)
    requires Fits(r.block, order)
    reads r.block
    ensures |u.z| == 64
  {
    Unit(r.ci, r.dc, r.ac, View(r.block, order))
  }

  /** From position k on, with r zeros pending, every coefficient is in range and every symbol
      has a code. */
  ghost predicate AcGood(x: Tables, ac: nat, z: seq<int>, k: nat, r: nat)
    requires |z| == 64
  {
    AllWritable(x, AcTokens(ac, z, k, r)) && forall i :: k <= i <= 63 ==> NBits(Abs(z[i])) <= MAX_COEF_BITS
  }

  lemma {:induction false} AcGoodStep(x: Tables, ac: nat, z: seq<int>, k: nat, r: nat)
    requires |z| == 64 && k <= 63
    ensures z[k] == 0 ==> (AcGood(x, ac, z, k, r) <==> AcGood(x, ac, z, k + 1, r + 1))
    ensures z[k] != 0 ==>
      (AcGood(x, ac, z, k, r) <==>
        AllWritable(x, Zrls(Ac(ac), r / 16)) && NBits(Abs(z[k])) <= MAX_COEF_BITS
        && AllWritable(x, ValueTokens(Ac(ac), r % 16, z[k])) && AcGood(x, ac, z, k + 1, 0))
  {
    hide Writable, ValueTokens, Zrls, AcTokens;
    AcTokensStep(ac, z, k, r);
    if z[k] == 0 {
      ZeroFits();
      hide NBits;
    } else {
      hide NBits;
      var a, b, c := Zrls(Ac(ac), r / 16), ValueTokens(Ac(ac), r % 16, z[k]), AcTokens(ac, z, k + 1, 0);
      if AllWritable(x, a + (b + c)) {
        WritableParts(x, a, b, c);
      }
    }
  }

  lemma {:induction false} ZeroFits()
    ensures NBits(Abs(0)) <= MAX_COEF_BITS
  {
  }

  /** The derived table holds codes of at most 16 bits, each less than 2^length. */
  lemma {:induction false} CodeFits(t: HuffTbl, isDC: bool, c: CTbl, s: nat)
    requires TableOk(t, isDC, c) && s < 256
    ensures |c.ehufsi| == |c.ehufco| == 256 && c.ehufsi[s] <= 16
    ensures c.ehufsi[s] != 0 ==> c.ehufco[s] % Pow2(c.ehufsi[s]) == c.ehufco[s]
  {
    FitsIffKraft(t.bits);
    hide Kraft, FitsUpTo, LengthAt, CodeAt, Total, Pow2;
    if c.ehufsi[s] != 0 {
      var p :| 0 <= p < Total(t.bits) && t.huffval[p] == s;
      NotAllOnes(t.bits, p);
      DivUnique(c.ehufco[s], Pow2(c.ehufsi[s]), 0, c.ehufco[s]);
    }
  }

  lemma {:induction false} EmitTwo(x: Tables, bits: seq<Bit>, a: Token, b: Token)
    ensures (bits + TokenBits(x, a)) + TokenBits(x, b) == bits + AllBits(x, [a, b])
  {
    TwoTokens(x, a, b);
    hide TokenBits, AllBits;
  }

  lemma {:induction false} EmitMore(x: Tables, bits: seq<Bit>, a: seq<Token>, b: seq<Token>)
    ensures (bits + AllBits(x, a)) + AllBits(x, b) == bits + AllBits(x, a + b)
  {
    AllBitsConcat(x, a, b);
    hide AllBits;
  }

  class Encoder {
    const tables: Tables
    const comps: nat
    const restartInterval: nat
    const writer: W.Writer
    var lastDcVal: seq<int>
    var restartsToGo: nat
    var nextRestartNum: nat

    constructor (x: Tables, n: nat, interval: nat)
      requires TablesOk(x)
      ensures tables == x && comps == n && restartInterval == interval
      ensures Valid() && fresh(writer) && writer.base == [] && writer.bits == []
      ensures lastDcVal == NoPred(n) && restartsToGo == interval && nextRestartNum == 0
    {
      tables, comps, restartInterval := x, n, interval;
      writer := new W.Writer();
      lastDcVal := NoPred(n);
      restartsToGo, nextRestartNum := interval, 0;
    }

    ghost predicate Valid()
      reads this, writer
    {
      TablesOk(tables) && writer.Valid() && |lastDcVal| == comps && nextRestartNum < 8
    }

    /** emit_bits with the code of a symbol; false if it has none. */
    method EmitSymbol(tbl: Table, s: nat) returns (ok: bool)
      requires TablesOk(tables) && writer.Valid() && s < 256
      requires if tbl.Dc? then tbl.no < |tables.dcc| else tbl.no < |tables.acc|
      modifies writer`out, writer`putBuffer, writer`putBits, writer`bits
      ensures writer.Valid() && (ok <==> Writable(tables, Sym(tbl, s)))
      ensures ok ==> writer.bits == old(writer.bits) + TokenBits(tables, Sym(tbl, s))
    {
      hide BitsOf, Pow2, Encodes, Legal, W.Holds, W.Writer.Valid;
      var c := if tbl.Dc? then tables.dcc[tbl.no] else tables.acc[tbl.no];
      assert TableOk(if tbl.Dc? then tables.dc[tbl.no] else tables.ac[tbl.no], tbl.Dc?, c);
      CodeFits(if tbl.Dc? then tables.dc[tbl.no] else tables.ac[tbl.no], tbl.Dc?, c, s);
      ok := writer.EmitBits(c.ehufco[s], c.ehufsi[s]);
    }

    /** emit_bits with the low n bits of a value. */
    method EmitRaw(v: int, n: nat)
      requires writer.Valid() && 1 <= n <= 16
      modifies writer`out, writer`putBuffer, writer`putBits, writer`bits
      ensures writer.Valid() && writer.bits == old(writer.bits) + TokenBits(tables, Bits(v % Pow2(n), n))
    {
      hide BitsOf, Pow2, W.Writer.Valid;
      var ok := writer.EmitBits(v, n);
    }

    /** The DC difference of a block. */
    method EmitDiff(dc: nat, diff: int) returns (ok: bool)
      requires TablesOk(tables) && writer.Valid() && dc < |tables.dcc|
      modifies writer`out, writer`putBuffer, writer`putBits, writer`bits
      ensures writer.Valid()
      ensures ok <==> NBits(Abs(diff)) <= MAX_COEF_BITS + 1 && AllWritable(tables, D.DiffTokens(Dc(dc), diff))
      ensures ok ==> writer.bits == old(writer.bits) + AllBits(tables, D.DiffTokens(Dc(dc), diff))
    {
      hide TokenBits, AllBits, NBits, Pow2, W.Writer.Valid, TablesOk;
      var temp, temp2 := diff, diff;
      if temp < 0 {
        temp := -temp;
        temp2 := temp2 - 1;
      }
      var nbits := CountBits(temp);
      if nbits > MAX_COEF_BITS + 1 {
        return false;
      }
      DiffWritable(tables, dc, diff);
      ok := EmitSymbol(Dc(dc), nbits);
      if !ok {
        return;
      }
      OneToken(tables, Sym(Dc(dc), nbits));
      if nbits != 0 {
        EmitRaw(temp2, nbits);
        EmitTwo(tables, old(writer.bits), Sym(Dc(dc), nbits), Bits(MagnitudeBits(diff, nbits), nbits));
        assert D.DiffTokens(Dc(dc), diff) == [Sym(Dc(dc), nbits), Bits(MagnitudeBits(diff, nbits), nbits)];
      } else {
        assert D.DiffTokens(Dc(dc), diff) == [Sym(Dc(dc), nbits)];
      }
    }

    /** while (r > 15) emit 0xF0. */
    method EmitZeroRuns(ac: nat, r0: nat) returns (ok: bool, r: nat)
      requires TablesOk(tables) && writer.Valid() && ac < |tables.acc|
      modifies writer`out, writer`putBuffer, writer`putBits, writer`bits
      ensures writer.Valid() && (ok <==> AllWritable(tables, Zrls(Ac(ac), r0 / 16)))
      ensures ok ==> r == r0 % 16 && writer.bits == old(writer.bits) + AllBits(tables, Zrls(Ac(ac), r0 / 16))
    {
      hide TokenBits, Writable, AllBits, W.Writer.Valid, TablesOk;
      r := r0;
      NoTokens(tables, []);
      assert old(writer.bits) + AllBits(tables, Zrls(Ac(ac), 0)) == old(writer.bits) by {
        assert Zrls(Ac(ac), 0) == [];
        assert AllBits(tables, []) + [] == [];
      }
      while r > 15
        invariant r <= r0 && (r0 - r) % 16 == 0 && writer.Valid()
        invariant (r0 - r) / 16 > 0 ==> Writable(tables, Sym(Ac(ac), ZRL))
        invariant writer.bits == old(writer.bits) + AllBits(tables, Zrls(Ac(ac), (r0 - r) / 16))
      {
        ghost var n := (r0 - r) / 16;
        assert Zrls(Ac(ac), r0 / 16)[0] == Sym(Ac(ac), ZRL);
        ok := EmitSymbol(Ac(ac), ZRL);
        if !ok {
          return;
        }
        OneToken(tables, Sym(Ac(ac), ZRL));
        EmitMore(tables, old(writer.bits), Zrls(Ac(ac), n), [Sym(Ac(ac), ZRL)]);
        assert Zrls(Ac(ac), n + 1) == Zrls(Ac(ac), n) + [Sym(Ac(ac), ZRL)];
        r := r - 16;
      }
      ok := true;
    }

    /** Run-length symbol and value bits of a nonzero AC coefficient. */
    method EmitValue(ac: nat, r: nat, v: int) returns (ok: bool)
      requires TablesOk(tables) && writer.Valid() && ac < |tables.acc| && r <= 15 && v != 0
      modifies writer`out, writer`putBuffer, writer`putBits, writer`bits
      ensures writer.Valid()
      ensures ok <==> NBits(Abs(v)) <= MAX_COEF_BITS && AllWritable(tables, ValueTokens(Ac(ac), r, v))
      ensures ok ==> writer.bits == old(writer.bits) + AllBits(tables, ValueTokens(Ac(ac), r, v))
    {
      hide TokenBits, AllBits, Pow2, W.Writer.Valid, TablesOk;
      var temp, temp2 := v, v;
      if temp < 0 {
        temp := -temp;
        temp2 := temp2 - 1;
      }
      var nbits := CountFrom1(temp);
      hide NBits;
      if nbits > MAX_COEF_BITS {
        return false;
      }
      ValueWritable(tables, ac, r, v);
      ok := EmitSymbol(Ac(ac), r * 16 + nbits);
      if !ok {
        return;
      }
      EmitRaw(temp2, nbits);
      EmitTwo(tables, old(writer.bits), Sym(Ac(ac), r * 16 + nbits), Bits(MagnitudeBits(v, nbits), nbits));
    }

    /** The AC coefficients of a block. */
    method EncodeAc(block: array<int>, order: seq<nat>, ac: nat) returns (ok: bool)
      requires TablesOk(tables) && writer.Valid() && ac < |tables.acc| && Fits(block, order)
      modifies writer`out, writer`putBuffer, writer`putBits, writer`bits
      ensures writer.Valid() && (ok <==> AcGood(tables, ac, View(block, order), 1, 0))
      ensures ok ==> writer.bits == old(writer.bits) + AllBits(tables, AcTokens(ac, View(block, order), 1, 0))
    {
      hide TokenBits, Writable, AllBits, W.Writer.Valid, TablesOk, AcGood, AcTokens, View, NBits, Zrls, ValueTokens;
      ghost var z, bits0 := View(block, order), writer.bits;
      ghost var all := bits0 + AllBits(tables, AcTokens(ac, z, 1, 0));
      var r: nat, k := 0, 1;
      while k < 64
        invariant 1 <= k <= 64 && writer.Valid() && r < k
        invariant AcGood(tables, ac, z, 1, 0) <==> AcGood(tables, ac, z, k, r)
        invariant all == writer.bits + AllBits(tables, AcTokens(ac, z, k, r))
      {
        AcGoodStep(tables, ac, z, k, r);
        AcTokensStep(ac, z, k, r);
        var temp := Load(block, order, k);
        if temp == 0 {
          r := r + 1;
        } else {
          AcSplit(tables, writer.bits, ac, z, k, r);
          var r1;
          ok, r1 := EmitZeroRuns(ac, r);
          if !ok {
            return;
          }
          ok := EmitValue(ac, r1, temp);
          if !ok {
            return;
          }
          r := 0;
        }
        k := k + 1;
      }
      AcEnd(tables, ac, z, r, writer.bits);
      ok := true;
      if r > 0 {
        ok := EmitSymbol(Ac(ac), 0);
      }
    }

    /** encode_one_block. */
    method EncodeOneBlock(r: Ref, order: seq<nat>, last: int) returns (ok: bool)
      requires TablesOk(tables) && writer.Valid() && r.dc < |tables.dc| && r.ac < |tables.ac| && Fits(r.block, order)
      modifies writer`out, writer`putBuffer, writer`putBits, writer`bits
      ensures writer.Valid() && (ok <==> BlockGood(tables, UnitOf(r, order), last))
      ensures ok ==> writer.bits == old(writer.bits) + AllBits(tables, BlockTokens(UnitOf(r, order), last))
    {
      hide TokenBits, Writable, AllBits, W.Writer.Valid, AcGood, AcTokens, NBits, D.DiffTokens, TableOk;
      ghost var u := UnitOf(r, order);
      BlockParts(tables, u, last, writer.bits);
      var dc := LoadDc(r.block, order);
      ok := EmitDiff(r.dc, dc - last);
      if ok {
        ok := EncodeAc(r.block, order, r.ac);
      }
    }

    /** The blocks of one MCU. */
    method EncodeBlocks(refs: seq<Ref>, order: seq<nat>) returns (ok: bool)
      requires Valid() && RefsFit(tables, comps, refs, order)
      modifies this`lastDcVal, writer`out, writer`putBuffer, writer`putBits, writer`bits
      ensures Valid() && McuOk(tables, comps, UnitsOf(refs, order))
      ensures ok <==> McuGood(tables, old(lastDcVal), UnitsOf(refs, order))
      ensures ok ==> writer.bits == old(writer.bits) + AllBits(tables, McuTokens(tables, old(lastDcVal), UnitsOf(refs, order)))
      ensures ok ==> lastDcVal == PredAfter(tables, old(lastDcVal), UnitsOf(refs, order))
    {
      hide AllBits, W.Writer.Valid, BlockGood, McuGood, McuTokens, PredAfter, BlockTokens, UnitsOf, View;
      ghost var mcu := UnitsOf(refs, order);
      UnitsOk(tables, comps, refs, order);
      ghost var pred, all := lastDcVal, writer.bits + AllBits(tables, McuTokens(tables, lastDcVal, mcu));
      assert mcu[0..] == mcu;
      var blkn := 0;
      while blkn < |refs|
        invariant 0 <= blkn <= |refs| && Valid() && McuOk(tables, comps, mcu[blkn..])
        invariant McuGood(tables, pred, mcu) <==> McuGood(tables, lastDcVal, mcu[blkn..])
        invariant all == writer.bits + AllBits(tables, McuTokens(tables, lastDcVal, mcu[blkn..]))
        invariant PredAfter(tables, pred, mcu) == PredAfter(tables, lastDcVal, mcu[blkn..])
      {
        var r := refs[blkn];
        assert mcu[blkn..][0] == UnitOf(r, order) && mcu[blkn..][1..] == mcu[blkn + 1..];
        McuStep(tables, lastDcVal, mcu[blkn..], writer.bits);
        ok := EncodeOneBlock(r, order, lastDcVal[r.ci]);
        if !ok {
          return;
        }
        var dc := LoadDc(r.block, order);
        lastDcVal := lastDcVal[r.ci := dc];
        blkn := blkn + 1;
      }
      McuEnd(tables, lastDcVal, writer.bits);
      assert mcu[blkn..] == [];
      ok := true;
    }

    /** Re-initialising the DC predictions. */
    method ResetPredictions()
      requires |lastDcVal| == comps
      modifies this`lastDcVal
      ensures lastDcVal == NoPred(comps)
    {
      var ci := 0;
      while ci < comps
        invariant 0 <= ci <= comps == |lastDcVal|
        invariant forall c :: 0 <= c < ci ==> lastDcVal[c] == 0
      {
        lastDcVal := lastDcVal[ci := 0];
        ci := ci + 1;
      }
      assert lastDcVal == NoPred(comps);
    }

    /** emit_restart. */
    method EmitRestart(num: nat)
      requires Valid() && num < 8
      modifies this`lastDcVal, writer
      ensures Valid() && writer.bits == [] && lastDcVal == NoPred(comps)
      ensures writer.base == writer.out
      ensures writer.out == old(writer.base) + (Finished(old(writer.bits)) + RstMarker(num))
    {
      hide Stuff, Pack, W.Writer.Valid, W.Padding, TablesOk, NoPred;
      writer.FlushBits();
      ghost var base, seg := writer.base, Finished(old(writer.bits));
      assert writer.out == base + seg;
      hide Finished;
      writer.EmitMarker(0xD0 + num);
      Regrouped(base, seg, RstMarker(num));
      ResetPredictions();
    }

    /** encode_mcu_huff. */
    method EncodeMcu(refs: seq<Ref>, order: seq<nat>) returns (ok: bool)
      requires Valid() && RefsFit(tables, comps, refs, order)
      modifies this`lastDcVal, this`restartsToGo, this`nextRestartNum, writer
      ensures Valid() && McuOk(tables, comps, UnitsOf(refs, order))
      ensures var due, mcu := restartInterval > 0 && old(restartsToGo) == 0, UnitsOf(refs, order);
        var pred := if due then NoPred(comps) else old(lastDcVal);
        && (ok <==> McuGood(tables, pred, mcu))
        && (ok ==>
          && writer.base == (if due then old(writer.base) + (Finished(old(writer.bits)) + RstMarker(old(nextRestartNum))) else old(writer.base))
          && writer.bits == (if due then [] else old(writer.bits)) + AllBits(tables, McuTokens(tables, pred, mcu))
          && lastDcVal == PredAfter(tables, pred, mcu)
          && restartsToGo == TogoAfter(restartInterval, old(restartsToGo))
          && nextRestartNum == if due then (old(nextRestartNum) + 1) % 8 else old(nextRestartNum))
    {
      hide AllBits, W.Writer.Valid, McuGood, McuTokens, PredAfter, UnitsOf, View, Finished, NoPred, IsZigzag, RstMarker;
      if restartInterval > 0 {
        if restartsToGo == 0 {
          EmitRestart(nextRestartNum);
        }
      }
      ok := EncodeBlocks(refs, order);
      if !ok {
        return;
      }
      if restartInterval > 0 {
        if restartsToGo == 0 {
          restartsToGo := restartInterval;
          nextRestartNum := (nextRestartNum + 1) % 8;
        }
        restartsToGo := restartsToGo - 1;
      }
    }

    /** The output with all that is still to come. */
    ghost function Owed(mcus: seq<seq<Unit>>): seq<Byte>
      requires AllMcusOk(tables, comps, mcus) && |lastDcVal| == comps && nextRestartNum < 8
      reads this, writer
    {
      RestartsOk(tables, comps, mcus, restartInterval, restartsToGo, nextRestartNum);
      writer.base + ScanBytes(tables, writer.bits, lastDcVal, WithRestarts(mcus, restartInterval, restartsToGo, nextRestartNum))
    }

    ghost predicate CodableFrom(mcus: seq<seq<Unit>>)
      requires AllMcusOk(tables, comps, mcus) && |lastDcVal| == comps && nextRestartNum < 8
      reads this
    {
      RestartsOk(tables, comps, mcus, restartInterval, restartsToGo, nextRestartNum);
      Codable(tables, lastDcVal, WithRestarts(mcus, restartInterval, restartsToGo, nextRestartNum))
    }

    /** The next MCU of a scan of which `mcus` are still to come. */
    method EncodeNext(refs: seq<Ref>, order: seq<nat>, ghost mcus: seq<seq<Unit>>) returns (ok: bool)
      requires Valid() && RefsFit(tables, comps, refs, order)
      requires mcus != [] && AllMcusOk(tables, comps, mcus) && mcus[0] == UnitsOf(refs, order)
      modifies this`lastDcVal, this`restartsToGo, this`nextRestartNum, writer
      ensures Valid() && AllMcusOk(tables, comps, mcus[1..])
      ensures ok ==> Owed(mcus[1..]) == old(Owed(mcus)) && (CodableFrom(mcus[1..]) <==> old(CodableFrom(mcus)))
      ensures !ok ==> !old(CodableFrom(mcus))
    {
      hide AllBits, W.Writer.Valid, McuTokens, PredAfter, UnitsOf, View, Finished, NoPred, IsZigzag, RstMarker,
        ScanBytes, Codable, McusOk, McuInRange, AllWritable, McuOk, TablesOk, WithRestarts;
      assert McuOk(tables, comps, mcus[0]);
      RestartsOk(tables, comps, mcus, restartInterval, restartsToGo, nextRestartNum);
      McuAhead(tables, writer.base, writer.bits, lastDcVal, mcus, restartInterval, restartsToGo, nextRestartNum);
      ok := EncodeMcu(refs, order);
    }

    /** A whole scan, MCU by MCU, then finish_pass_huff. */
    method EncodeScan(mcus: seq<seq<Ref>>, order: seq<nat>) returns (ok: bool)
      requires Valid() && IsZigzag(order) && forall i :: 0 <= i < |mcus| ==> RefsFit(tables, comps, mcus[i], order)
      requires AllFit(mcus, order)
      requires writer.base == [] && writer.bits == [] && lastDcVal == NoPred(comps)
      requires restartsToGo == restartInterval && nextRestartNum == 0
      modifies this`lastDcVal, this`restartsToGo, this`nextRestartNum, writer
      ensures AllMcusOk(tables, comps, old(ScanUnits(mcus, order)))
      ensures ok <==> PassCodable(tables, comps, old(ScanUnits(mcus, order)), restartInterval)
      ensures ok ==> writer.out == PassBytes(tables, comps, old(ScanUnits(mcus, order)), restartInterval)
    {
      hide W.Writer.Valid, UnitsOf, ScanUnits, Finished, IsZigzag, ScanBytes, Codable, McusOk, McuOk, TablesOk, WithRestarts,
        Owed, CodableFrom, RefsFit, NoPred, PassBytes, PassCodable;
      ScanUnitsOk(tables, comps, mcus, order);
      ghost var us := ScanUnits(mcus, order);
      OwedAtFirst(us);
      assert us[0..] == us;
      var i := 0;
      while i < |mcus|
        invariant 0 <= i <= |mcus| && Valid() && AllMcusOk(tables, comps, us[i..])
        invariant PassBytes(tables, comps, us, restartInterval) == Owed(us[i..])
        invariant PassCodable(tables, comps, us, restartInterval) <==> CodableFrom(us[i..])
      {
        assert us[i..][1..] == us[i + 1..];
        ok := EncodeNext(mcus[i], order, us[i..]);
        if !ok {
          return;
        }
        i := i + 1;
      }
      assert us[i..] == [];
      OwedAtLast();
      IsFinished(writer.bits);
      writer.FlushBits();
      ok := true;
    }

    lemma {:induction false} OwedAtFirst(us: seq<seq<Unit>>)
      requires AllMcusOk(tables, comps, us) && |lastDcVal| == comps && nextRestartNum < 8
      requires writer.base == [] && writer.bits == [] && lastDcVal == NoPred(comps)
      requires restartsToGo == restartInterval && nextRestartNum == 0
      ensures Owed(us) == PassBytes(tables, comps, us, restartInterval)
      ensures CodableFrom(us) <==> PassCodable(tables, comps, us, restartInterval)
    {
      hide ScanBytes, Codable, WithRestarts, McusOk;
      assert [] + PassBytes(tables, comps, us, restartInterval) == PassBytes(tables, comps, us, restartInterval);
    }

    lemma {:induction false} OwedAtLast()
      requires TablesOk(tables) && |lastDcVal| == comps && nextRestartNum < 8
      ensures AllMcusOk(tables, comps, []) && CodableFrom([]) && Owed([]) == writer.base + Finished(writer.bits)
    {
      hide TablesOk, Finished;
      NothingAhead(tables, writer.bits, lastDcVal, restartInterval, restartsToGo, nextRestartNum);
    }
  }

  lemma {:induction false} IsFinished(bits: seq<Bit>)
    ensures Finished(bits) == Stuff(Pack(bits + W.Padding(|bits|)))
  {
  }

  ghost function ScanUnits(mcus: seq<seq<Ref>>, order: seq<nat>): (us: seq<seq<Unit>>)
    requires AllFit(mcus, order)
    reads set i, j | 0 <= i < |mcus| && 0 <= j < |mcus[i]| :: mcus[i][j].block
    ensures |us| == |mcus| && forall i :: 0 <= i < |us| ==> us[i] == UnitsOf(mcus[i], order)
  {
    if mcus == [] then [] else [UnitsOf(mcus[0], order)] + ScanUnits(mcus[1..], order)
  }

  ghost predicate AllFit(mcus: seq<seq<Ref>>, order: seq<nat>) {
    forall i, j :: 0 <= i < |mcus| && 0 <= j < |mcus[i]| ==> Fits(mcus[i][j].block, order)
  }

  lemma {:induction false} ScanUnitsOk(x: Tables, comps: nat, mcus: seq<seq<Ref>>, order: seq<nat>)
    requires TablesOk(x) && forall i :: 0 <= i < |mcus| ==> RefsFit(x, comps, mcus[i], order)
    ensures AllFit(mcus, order)
    ensures AllMcusOk(x, comps, ScanUnits(mcus, order))
  {
    hide View, IsZigzag;
    forall i | 0 <= i < |mcus| ensures McuOk(x, comps, ScanUnits(mcus, order)[i]) {
      assert RefsFit(x, comps, mcus[i], order);
      UnitsOk(x, comps, mcus[i], order);
      hide McuOk;
    }
  }

  lemma {:induction false} Regrouped(a: seq<Byte>, b: seq<Byte>, c: seq<Byte>)
    ensures (a + b) + c == a + (b + c)
  {
  }

  ghost predicate BlockGood(x: Tables, u: Unit, last: int)
    requires |u.z| == 64
  {
    BlockInRange(u, last) && AllWritable(x, BlockTokens(u, last))
  }

  lemma {:induction false} BlockParts(x: Tables, u: Unit, last: int, bits: seq<Bit>)
    requires |u.z| == 64
    ensures BlockGood(x, u, last) <==>
      NBits(Abs(u.z[0] - last)) <= MAX_COEF_BITS + 1 && AllWritable(x, D.DiffTokens(Dc(u.dc), u.z[0] - last))
      && AcGood(x, u.ac, u.z, 1, 0)
    ensures bits + AllBits(x, BlockTokens(u, last))
         == (bits + AllBits(x, D.DiffTokens(Dc(u.dc), u.z[0] - last))) + AllBits(x, AcTokens(u.ac, u.z, 1, 0))
  {
    hide Writable, AllBits, AcTokens, NBits, D.DiffTokens;
    var a, b := D.DiffTokens(Dc(u.dc), u.z[0] - last), AcTokens(u.ac, u.z, 1, 0);
    EmitMore(x, bits, a, b);
    if AllWritable(x, a + b) {
      TwoWritable(x, a, b);
    }
  }

  ghost function UnitsOf(refs: seq<Ref>, order: seq<nat>): (mcu: seq<Unit>)
    requires forall i :: 0 <= i < |refs| ==> Fits(refs[i].block, order)
    reads set i | 0 <= i < |refs| :: refs[i].block
    ensures |mcu| == |refs| && forall i :: 0 <= i < |refs| ==> mcu[i] == UnitOf(refs[i], order)
  {
    if refs == [] then [] else [UnitOf(refs[0], order)] + UnitsOf(refs[1..], order)
  }

  lemma {:induction false} UnitsOk(x: Tables, comps: nat, refs: seq<Ref>, order: seq<nat>)
    requires RefsFit(x, comps, refs, order)
    ensures McuOk(x, comps, UnitsOf(refs, order))
  {
    hide View, IsZigzag;
  }

  ghost predicate McuGood(x: Tables, pred: seq<int>, mcu: seq<Unit>)
    requires McuOk(x, |pred|, mcu)
  {
    McuInRange(x, pred, mcu) && AllWritable(x, McuTokens(x, pred, mcu))
  }

  lemma {:induction false} McuStep(x: Tables, pred: seq<int>, mcu: seq<Unit>, bits: seq<Bit>)
    requires McuOk(x, |pred|, mcu) && mcu != []
    ensures UnitOk(x, |pred|, mcu[0]) && McuOk(x, |pred|, mcu[1..])
    ensures var u, later := mcu[0], pred[mcu[0].ci := mcu[0].z[0]];
      && (McuGood(x, pred, mcu) <==> BlockGood(x, u, pred[u.ci]) && McuGood(x, later, mcu[1..]))
      && PredAfter(x, pred, mcu) == PredAfter(x, later, mcu[1..])
      && bits + AllBits(x, McuTokens(x, pred, mcu))
         == (bits + AllBits(x, BlockTokens(u, pred[u.ci]))) + AllBits(x, McuTokens(x, later, mcu[1..]))
  {
    hide Writable, AllBits, BlockInRange, BlockTokens;
    var u := mcu[0];
    assert UnitOk(x, |pred|, u);
    var later := pred[u.ci := u.z[0]];
    var a, b := BlockTokens(u, pred[u.ci]), McuTokens(x, later, mcu[1..]);
    EmitMore(x, bits, a, b);
    if AllWritable(x, a + b) {
      TwoWritable(x, a, b);
    }
  }

  lemma {:induction false} McuEnd(x: Tables, pred: seq<int>, bits: seq<Bit>)
    ensures McuGood(x, pred, []) && PredAfter(x, pred, []) == pred && bits + AllBits(x, McuTokens(x, pred, [])) == bits
  {
    assert bits + [] == bits;
  }

  /** block[0]: the natural order starts at 0. */
  method LoadDc(block: array<int>, order: seq<nat>) returns (v: int)
    requires Fits(block, order)
    ensures v == View(block, order)[0]
  {
    v := block[0];
  }

  method Load(block: array<int>, order: seq<nat>, k: nat) returns (v: int)
    requires Fits(block, order) && k < 64
    ensures v == View(block, order)[k]
  {
    v := block[order[k]];
  }

  lemma {:induction false} AcSplit(x: Tables, bits: seq<Bit>, ac: nat, z: seq<int>, k: nat, r: nat)
    requires |z| == 64 && k <= 63 && z[k] != 0
    ensures bits + AllBits(x, AcTokens(ac, z, k, r))
         == ((bits + AllBits(x, Zrls(Ac(ac), r / 16))) + AllBits(x, ValueTokens(Ac(ac), r % 16, z[k]))) + AllBits(x, AcTokens(ac, z, k + 1, 0))
  {
    AcTokensStep(ac, z, k, r);
    hide AllBits, Zrls, ValueTokens, AcTokens;
    var a, b, c := Zrls(Ac(ac), r / 16), ValueTokens(Ac(ac), r % 16, z[k]), AcTokens(ac, z, k + 1, 0);
    EmitMore(x, bits + AllBits(x, a), b, c);
    EmitMore(x, bits, a, b + c);
  }

  lemma {:induction false} AcEnd(x: Tables, ac: nat, z: seq<int>, r: nat, bits: seq<Bit>)
    requires |z| == 64
    ensures AcGood(x, ac, z, 64, r) <==> (r > 0 ==> Writable(x, Sym(Ac(ac), 0)))
    ensures bits + AllBits(x, AcTokens(ac, z, 64, r)) == bits + if r > 0 then TokenBits(x, Sym(Ac(ac), 0)) else []
  {
    hide Writable, TokenBits;
    AcTokensEnd(ac, z, r);
    OneToken(x, Sym(Ac(ac), 0));
    assert r > 0 ==> AcTokens(ac, z, 64, r)[0] == Sym(Ac(ac), 0);
  }

  /** nbits = 1; while ((temp >>= 1)) nbits++; */
  method CountFrom1(t: nat) returns (nbits: nat)
    requires t > 0
    ensures nbits == NBits(t) >= 1
  {
    var temp: nat := t / 2;
    nbits := 1;
    while temp != 0
      invariant nbits + NBits(temp) == NBits(t) && nbits >= 1
    {
      nbits := nbits + 1;
      temp := temp / 2;
    }
  }

  lemma {:induction false} DiffWritable(x: Tables, dc: nat, diff: int)
    ensures AllWritable(x, D.DiffTokens(Dc(dc), diff)) <==> Writable(x, Sym(Dc(dc), NBits(Abs(diff))))
  {
    hide NBits, TableOf;
    var ts := D.DiffTokens(Dc(dc), diff);
    assert ts[0] == Sym(Dc(dc), NBits(Abs(diff)));
  }

  lemma {:induction false} ValueWritable(x: Tables, ac: nat, r: nat, v: int)
    ensures AllWritable(x, ValueTokens(Ac(ac), r, v)) <==> Writable(x, Sym(Ac(ac), r * 16 + NBits(Abs(v))))
  {
    hide NBits, TableOf;
    var ts := ValueTokens(Ac(ac), r, v);
    assert ts[0] == Sym(Ac(ac), r * 16 + NBits(Abs(v)));
  }
}
