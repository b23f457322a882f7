// A progressive AC scan as it is decoded from its bytes (jdphuff.c): the blocks are filled in
// place through the bit reader, symbol by symbol, while the input may still be arriving.
module AcReader {
  import opened Arith
  import opened Coefficients
  import opened Tokens
  import opened AcRefine
  import opened AcFirst
  import opened BitPacking
  import opened HuffmanDecoding
  import opened SequentialScan
  import opened SequentialStream
  import opened TokenReader
  import AC = AcScan
  import P = ProgressiveDecoder
  import R = BitReader
  import S = AcSuspend

  // ----- tokens read so far -----

  lemma {:induction false} OneMore(ts: seq<Token>, n: nat)
    requires n < |ts|
    ensures ts[..n + 1] == ts[..n] + [ts[n]] && ts[n..][0] == ts[n] && ts[n..][1..] == ts[n + 1..]
  {
  }

  lemma {:induction false} Whole(ts: seq<Token>, n: nat)
    requires n <= |ts|
    ensures ts[..n] + ts[n..] == ts && ts[..n] + [] == ts[..n]
  {
  }

  lemma {:induction false} Parts(ts: seq<Token>, n: nat, m: nat)
    requires n + m <= |ts|
    ensures ts[..n] + ts[n..][..m] == ts[..n + m] && ts[n..][m..] == ts[n + m..]
  {
  }

  // ----- the inner loop of refinement -----

  /** Having read got, the skip is at position k with r zeros to go and the block d. */
  ghost predicate Skipped(b: Band, got: seq<Token>, k0: nat, r0: nat, d0: seq<int>, k: nat, r: nat, d: seq<int>)
    requires b.se < |d0| && b.se < |d|
  {
    forall more: seq<Token> :: Skip(b, got + more, k0, r0, d0) == Skip(b, more, k, r, d)
  }

  lemma {:induction false} SkippedNone(b: Band, k0: nat, r0: nat, d0: seq<int>)
    requires b.se < |d0|
    ensures Skipped(b, [], k0, r0, d0, k0, r0, d0)
  {
    forall more: seq<Token> ensures Skip(b, [] + more, k0, r0, d0) == Skip(b, more, k0, r0, d0) {
      assert [] + more == more;
    }
  }

  lemma {:induction false} SkippedBit(b: Band, got: seq<Token>, k0: nat, r0: nat, d0: seq<int>, k: nat, r: nat, d: seq<int>, v: nat)
    requires b.se < |d0| && k <= b.se < |d| && Skipped(b, got, k0, r0, d0, k, r, d) && d[k] != 0
    ensures Skipped(b, got + [Bits(v, 1)], k0, r0, d0, k + 1, r, d[k := Correct(d[k], v, b.al)])
  {
    hide Skip, Correct;
    forall more: seq<Token>
      ensures Skip(b, (got + [Bits(v, 1)]) + more, k0, r0, d0) == Skip(b, more, k + 1, r, d[k := Correct(d[k], v, b.al)])
    {
      var m := [Bits(v, 1)] + more;
      assert (got + [Bits(v, 1)]) + more == got + m && m[1..] == more;
      P.SkipUnfold(b, m, k, r, d);
    }
  }

  lemma {:induction false} SkippedZero(b: Band, got: seq<Token>, k0: nat, r0: nat, d0: seq<int>, k: nat, r: nat, d: seq<int>)
    requires b.se < |d0| && k <= b.se < |d| && Skipped(b, got, k0, r0, d0, k, r, d) && d[k] == 0 && r > 0
    ensures Skipped(b, got, k0, r0, d0, k + 1, r - 1, d)
  {
    hide Skip;
    forall more: seq<Token> ensures Skip(b, got + more, k0, r0, d0) == Skip(b, more, k + 1, r - 1, d) {
      P.SkipUnfold(b, more, k, r, d);
    }
  }

  /** What the skip amounts to if it stops here: done, or starved if a bit is needed. */
  lemma {:induction false} SkippedStops(b: Band, got: seq<Token>, k0: nat, r0: nat, d0: seq<int>, k: nat, r: nat, d: seq<int>)
    requires b.se < |d0| && b.se < |d| && Skipped(b, got, k0, r0, d0, k, r, d)
    ensures k > b.se || (d[k] == 0 && r == 0) ==> Skip(b, got, k0, r0, d0) == SkipTo([], k, d)
    ensures k <= b.se && d[k] != 0 ==> Skip(b, got, k0, r0, d0) == SkipStarved(d)
  {
    assert got + [] == got;
    assert Skip(b, got + [], k0, r0, d0) == Skip(b, [], k, r, d);
    hide Correct;
  }

  lemma {:induction false} SkippedRest(b: Band, ts: seq<Token>, n: nat, k0: nat, r0: nat, d0: seq<int>, k: nat, r: nat, d: seq<int>)
    requires b.se < |d0| && b.se < |d| && n <= |ts| && Skipped(b, ts[..n], k0, r0, d0, k, r, d)
    ensures Skip(b, ts, k0, r0, d0) == Skip(b, ts[n..], k, r, d)
    ensures k <= b.se && d[k] != 0 && Skip(b, ts, k0, r0, d0).SkipTo? ==> ReadBits(ts[n..], 1).Got?
  {
    hide Skip, Correct;
    Whole(ts, n);
    if k <= b.se {
      P.SkipUnfold(b, ts[n..], k, r, d);
    }
  }

  /** The inner loop of refinement, from the bits: n tokens read. */
  method Advance(rd: R.Reader, ghost x: Tables, b: Band, block: array<int>, order: seq<nat>, k0: nat, r0: nat,
                 ghost ts: seq<Token>, ghost later: seq<Byte>, ghost e: Stream) returns (ok: bool, k: nat, ghost n: nat)
    requires BandOk(b) && Fits(block, order) && k0 <= b.se && Follows(rd, x, ts, later, e)
    requires Skip(b, ts, k0, r0, View(block, order)).SkipTo?
    modifies rd, block
    ensures rd.Ending() == old(rd.Ending()) && (!ok ==> rd.Ending().0 == 0) && n <= |ts|
    ensures ok ==> k0 <= k <= b.se + 1 && Follows(rd, x, ts[n..], later, e)
    ensures ok ==> Skip(b, ts[..n], k0, r0, old(View(block, order))) == SkipTo([], k, View(block, order))
    ensures !ok ==> Skip(b, ts[..n], k0, r0, old(View(block, order))) == SkipStarved(View(block, order))
  {
    hide Correct, View, IsZigzag, Skip, Follows, Skipped, R.Coming;
    ghost var d0 := View(block, order);
    var r: int := r0;
    ok, k, n := true, k0, 0;
    SkippedNone(b, k0, r0, d0);
    assert ts[..0] == [] && ts[0..] == ts;
    while true
      invariant k0 <= k <= b.se && r >= 0 && n <= |ts| && rd.Ending() == old(rd.Ending()) && ok
      invariant Skipped(b, ts[..n], k0, r0, d0, k, r, View(block, order)) && Follows(rd, x, ts[n..], later, e)
      decreases b.se - k
    {
      SkippedRest(b, ts, n, k0, r0, d0, k, r, View(block, order));
      SkippedStops(b, ts[..n], k0, r0, d0, k, r, View(block, order));
      var zero := P.IsZero(block, order, k);
      if !zero {
        var v;
        ok, v := NextBits(rd, x, 1, ts[n..], later, e);
        if !ok {
          return;
        }
        OneMore(ts, n);
        SkippedBit(b, ts[..n], k0, r0, d0, k, r, View(block, order), v);
        P.ApplyBit(block, order, k, v, b.al);
        n := n + 1;
      } else {
        if r > 0 {
          SkippedZero(b, ts[..n], k0, r0, d0, k, r, View(block, order));
        }
        r := r - 1;
        if r < 0 {
          break;
        }
      }
      k := k + 1;
      if k > b.se {
        SkippedStops(b, ts[..n], k0, r0, d0, k, r, View(block, order));
        break;
      }
    }
  }

  // ----- correction bits after the EOB -----

  ghost predicate Tailed(b: Band, got: seq<Token>, k0: nat, d0: seq<int>, k: nat, d: seq<int>)
    requires b.se < |d0| && b.se < |d|
  {
    forall more: seq<Token> :: RefineTail(b, got + more, k0, d0) == RefineTail(b, more, k, d)
  }

  lemma {:induction false} TailUnfold(b: Band, ts: seq<Token>, k: nat, d: seq<int>)
    requires b.se < |d|
    ensures RefineTail(b, ts, k, d) ==
      (if k > b.se then SkipTo(ts, k, d)
       else if d[k] != 0 then
         match ReadBits(ts, 1)
         case NoData => SkipStarved(d)
         case WrongKind => SkipGarbled
         case Got(v, rest) => RefineTail(b, rest, k + 1, d[k := Correct(d[k], v, b.al)])
       else RefineTail(b, ts, k + 1, d))
  {
    hide Correct;
  }

  lemma {:induction false} TailedNone(b: Band, k0: nat, d0: seq<int>)
    requires b.se < |d0|
    ensures Tailed(b, [], k0, d0, k0, d0)
  {
    forall more: seq<Token> ensures RefineTail(b, [] + more, k0, d0) == RefineTail(b, more, k0, d0) {
      assert [] + more == more;
    }
  }

  lemma {:induction false} TailedBit(b: Band, got: seq<Token>, k0: nat, d0: seq<int>, k: nat, d: seq<int>, v: nat)
    requires b.se < |d0| && k <= b.se < |d| && Tailed(b, got, k0, d0, k, d) && d[k] != 0
    ensures Tailed(b, got + [Bits(v, 1)], k0, d0, k + 1, d[k := Correct(d[k], v, b.al)])
  {
    hide RefineTail, Correct;
    forall more: seq<Token>
      ensures RefineTail(b, (got + [Bits(v, 1)]) + more, k0, d0) == RefineTail(b, more, k + 1, d[k := Correct(d[k], v, b.al)])
    {
      var m := [Bits(v, 1)] + more;
      assert (got + [Bits(v, 1)]) + more == got + m && m[1..] == more;
      TailUnfold(b, m, k, d);
    }
  }

  lemma {:induction false} TailedZero(b: Band, got: seq<Token>, k0: nat, d0: seq<int>, k: nat, d: seq<int>)
    requires b.se < |d0| && k <= b.se < |d| && Tailed(b, got, k0, d0, k, d) && d[k] == 0
    ensures Tailed(b, got, k0, d0, k + 1, d)
  {
    hide RefineTail;
    forall more: seq<Token> ensures RefineTail(b, got + more, k0, d0) == RefineTail(b, more, k + 1, d) {
      TailUnfold(b, more, k, d);
    }
  }

  lemma {:induction false} TailedStops(b: Band, got: seq<Token>, k0: nat, d0: seq<int>, k: nat, d: seq<int>)
    requires b.se < |d0| && b.se < |d| && Tailed(b, got, k0, d0, k, d)
    ensures k > b.se ==> RefineTail(b, got, k0, d0) == SkipTo([], k, d)
    ensures k <= b.se && d[k] != 0 ==> RefineTail(b, got, k0, d0) == SkipStarved(d)
  {
    assert got + [] == got;
    assert RefineTail(b, got + [], k0, d0) == RefineTail(b, [], k, d);
    hide Correct;
  }

  lemma {:induction false} TailedRest(b: Band, ts: seq<Token>, n: nat, k0: nat, d0: seq<int>, k: nat, d: seq<int>)
    requires b.se < |d0| && b.se < |d| && n <= |ts| && Tailed(b, ts[..n], k0, d0, k, d)
    ensures RefineTail(b, ts, k0, d0) == RefineTail(b, ts[n..], k, d)
    ensures k <= b.se && d[k] != 0 && RefineTail(b, ts, k0, d0).SkipTo? ==> ReadBits(ts[n..], 1).Got?
  {
    hide RefineTail, Correct;
    Whole(ts, n);
    TailUnfold(b, ts[n..], k, d);
  }

  /** The positions after the last new coefficient of a block that ends in an EOB. */
  method RefineRest(rd: R.Reader, ghost x: Tables, b: Band, block: array<int>, order: seq<nat>, k0: nat,
                    ghost ts: seq<Token>, ghost later: seq<Byte>, ghost e: Stream) returns (ok: bool, ghost n: nat)
    requires BandOk(b) && Fits(block, order) && Follows(rd, x, ts, later, e)
    requires RefineTail(b, ts, k0, View(block, order)).SkipTo?
    modifies rd, block
    ensures rd.Ending() == old(rd.Ending()) && (!ok ==> rd.Ending().0 == 0) && n <= |ts|
    ensures ok ==> Follows(rd, x, ts[n..], later, e)
    ensures ok ==> var o := RefineTail(b, ts[..n], k0, old(View(block, order))); o.SkipTo? && o.ts == [] && o.d == View(block, order)
    ensures !ok ==> RefineTail(b, ts[..n], k0, old(View(block, order))) == SkipStarved(View(block, order))
  {
    hide Correct, View, IsZigzag, RefineTail, Follows, Tailed, R.Coming;
    ghost var d0 := View(block, order);
    ok, n := true, 0;
    var k := k0;
    TailedNone(b, k0, d0);
    assert ts[..0] == [] && ts[0..] == ts;
    while k <= b.se
      invariant n <= |ts| && rd.Ending() == old(rd.Ending()) && ok
      invariant Tailed(b, ts[..n], k0, d0, k, View(block, order)) && Follows(rd, x, ts[n..], later, e)
      decreases b.se + 1 - k
    {
      TailedRest(b, ts, n, k0, d0, k, View(block, order));
      TailedStops(b, ts[..n], k0, d0, k, View(block, order));
      var zero := P.IsZero(block, order, k);
      if !zero {
        var v;
        ok, v := NextBits(rd, x, 1, ts[n..], later, e);
        if !ok {
          return;
        }
        OneMore(ts, n);
        TailedBit(b, ts[..n], k0, d0, k, View(block, order), v);
        P.ApplyBit(block, order, k, v, b.al);
        n := n + 1;
      } else {
        TailedZero(b, ts[..n], k0, d0, k, View(block, order));
      }
      k := k + 1;
    }
    TailedStops(b, ts[..n], k0, d0, k, View(block, order));
  }

  // ----- the symbols of a refinement scan -----

  /** The tokens of one code: a new value s after r zeros, a ZRL, or an EOB run. */
  predicate CodeOf(b: Band, got: seq<Token>, r: nat, s: int, run: nat) {
    && got != [] && got[0].Sym? && got[0].tbl == b.tbl && got[0].s < 256
    && var v := got[0].s;
      if v % 16 != 0 then |got| == 2 && got[1].Bits? && got[1].n == 1 && r == v / 16 && s == NewValue(got[1].v, b.al) && run == 0
      else if v / 16 == 15 then |got| == 1 && r == 15 && s == 0 && run == 0
      else if v / 16 == 0 then |got| == 1 && s == 0 && run == 1
      else |got| == 2 && got[1].Bits? && got[1].n == v / 16 && s == 0 && run == Pow2(v / 16) + got[1].v
  }

  /** A code of which only the beginning is there. */
  predicate PartOf(b: Band, got: seq<Token>) {
    got == [] || (|got| == 1 && got[0].Sym? && got[0].tbl == b.tbl && (got[0].s % 16 != 0 || 0 < got[0].s / 16 < 15))
  }

  /** A code comes next. */
  predicate CodeComes(b: Band, ts: seq<Token>) {
    match ReadSym(ts, b.tbl)
    case GotSym(v, ts1) =>
      if v % 16 != 0 then ReadBits(ts1, 1).Got? else if 0 < v / 16 < 15 then ReadBits(ts1, v / 16).Got? else true
    case _ => false
  }

  lemma {:induction false} RoundHasCode(b: Band, ts: seq<Token>, k: nat, d: seq<int>, newnz: seq<nat>)
    requires BandOk(b) && |d| == 64 && InBlock(newnz) && k <= b.se
    requires var o := LoopRound(b, ts, k, d, newnz); o.Next? || o.o.LoopDone?
    ensures CodeComes(b, ts)
  {
    hide Pow2, NewValue, Skip, Undo;
  }

  lemma {:induction false} RoundOfCode(b: Band, got: seq<Token>, more: seq<Token>, r: nat, s: int, run: nat, k: nat, d: seq<int>, newnz: seq<nat>)
    requires BandOk(b) && |d| == 64 && InBlock(newnz) && k <= b.se && CodeOf(b, got, r, s, run)
    ensures LoopRound(b, got + more, k, d, newnz) ==
      if run > 0 then Halt(LoopDone(more, k, run, d, newnz)) else AfterSkip(b, Skip(b, more, k, r, d), newnz, s)
  {
    hide Pow2, NewValue, Skip, Undo;
    var v, all := got[0].s, got + more;
    assert all[0] == got[0];
    if v % 16 == 0 && (v / 16 == 15 || v / 16 == 0) {
      assert all[1..] == more;
    } else {
      assert all[1..][0] == got[1] && all[1..][1..] == more;
    }
  }

  lemma {:induction false} RoundOfPart(b: Band, got: seq<Token>, k: nat, d: seq<int>, newnz: seq<nat>)
    requires BandOk(b) && |d| == 64 && InBlock(newnz) && k <= b.se && PartOf(b, got)
    ensures LoopRound(b, got, k, d, newnz) == Halt(LoopStarved(Undo(d, newnz)))
  {
    hide Pow2, NewValue, Skip, Undo;
  }

  /** Reading a symbol and what belongs to it. */
  method ReadCode(rd: R.Reader, ghost x: Tables, d: DTbl, b: Band, ghost ts: seq<Token>, ghost later: seq<Byte>, ghost e: Stream)
    returns (ok: bool, r: nat, s: int, run: nat, ghost n: nat)
    requires Follows(rd, x, ts, later, e) && TableFor(x, b.tbl, d) && CodeComes(b, ts)
    modifies rd
    ensures rd.Ending() == old(rd.Ending()) && (!ok ==> rd.Ending().0 == 0) && n <= |ts|
    ensures ok ==> CodeOf(b, ts[..n], r, s, run) && r <= 15 && Follows(rd, x, ts[n..], later, e)
    ensures !ok ==> PartOf(b, ts[..n])
  {
    hide Follows, R.Coming, TableFor, NewValue;
    assert Pow2(0) == 1;
    hide Pow2;
    r, s, run, n := 0, 0, 0, 0;
    var symbol, v;
    ok, symbol := NextSym(rd, x, d, b.tbl, ts, later, e);
    if !ok {
      return;
    }
    r, s, n := symbol / 16, symbol % 16, 1;
    assert ts[..1] == [ts[0]];
    if s != 0 {
      ok, v := NextBits(rd, x, 1, ts[1..], later, e);
      if !ok {
        return;
      }
      s := SignedBit(v, b.al);
      TwoRead(ts);
      n := 2;
    } else if r != 15 {
      run := Pow2(r);
      if r != 0 {
        ok, v := NextBits(rd, x, r, ts[1..], later, e);
        if !ok {
          return;
        }
        run := run + v;
        TwoRead(ts);
        n := 2;
      }
    }
  }

  /** p1 or m1. */
  method SignedBit(v: nat, al: nat) returns (s: int)
    ensures s == NewValue(v, al) && s != 0
  {
    var p1: int := Pow2(al);
    s := if v != 0 then p1 else -p1;
  }

  lemma {:induction false} TwoRead(ts: seq<Token>)
    requires |ts| >= 2
    ensures ts[..2] == [ts[0], ts[1]] && ts[1..][0] == ts[1] && ts[1..][1..] == ts[2..]
  {
  }

  // ----- rounds of a refinement scan -----

  /** One round, from the bits: n tokens read; `more` says that the loop goes on. */
  method RefineRound(rd: R.Reader, ghost x: Tables, d: DTbl, b: Band, block: array<int>, order: seq<nat>, newnzPos: array<nat>, k0: nat, num0: nat,
                     ghost newnz0: seq<nat>, ghost ts: seq<Token>, ghost later: seq<Byte>, ghost e: Stream)
    returns (ok: bool, more: bool, k: nat, run: nat, num: nat, ghost newnz: seq<nat>, ghost n: nat)
    requires BandOk(b) && Fits(block, order) && k0 <= b.se && P.Noted(newnzPos, num0, newnz0, order) && num0 <= 62
    requires Follows(rd, x, ts, later, e) && TableFor(x, b.tbl, d)
    requires var o := LoopRound(b, ts, k0, View(block, order), newnz0); o.Next? || o.o.LoopDone?
    modifies rd, block, newnzPos
    ensures rd.Ending() == old(rd.Ending()) && (!ok ==> rd.Ending().0 == 0) && n <= |ts|
    ensures P.Noted(newnzPos, num, newnz, order) && num <= num0 + 1
    ensures ok ==> n > 0 && Follows(rd, x, ts[n..], later, e)
    ensures ok ==> (if more then k > k0 && run == 0 else run > 0)
    ensures LoopRound(b, ts[..n], k0, old(View(block, order)), newnz0) ==
      if !ok then Halt(LoopStarved(Undo(View(block, order), newnz)))
      else if more then Next([], k, View(block, order), newnz)
      else Halt(LoopDone([], k, run, View(block, order), newnz))
  {
    hide View, IsZigzag, Skip, Undo, LoopRound, Follows, TableFor, CodeOf, PartOf, CodeComes, R.Coming;
    more, k, num, newnz := false, k0, num0, newnz0;
    ghost var d0 := View(block, order);
    RoundHasCode(b, ts, k0, d0, newnz0);
    var r, s;
    ok, r, s, run, n := ReadCode(rd, x, d, b, ts, later, e);
    if !ok {
      RoundOfPart(b, ts[..n], k0, d0, newnz0);
      return;
    }
    Whole(ts, n);
    RoundOfCode(b, ts[..n], ts[n..], r, s, run, k0, d0, newnz0);
    RoundOfCode(b, ts[..n], [], r, s, run, k0, d0, newnz0);
    CodeNotEmpty(b, ts[..n], r, s, run);
    if run > 0 {
      return;
    }
    ghost var c, m := n, 0;
    ok, k, m := Advance(rd, x, b, block, order, k0, r, ts[c..], later, e);
    n := c + m;
    Parts(ts, c, m);
    RoundOfCode(b, ts[..c], ts[c..][..m], r, s, run, k0, d0, newnz0);
    if !ok {
      return;
    }
    if s != 0 {
      Store(block, order, k, s);
      P.ClampSame(order, k);
      newnzPos[num] := order[k];
      newnz := newnz + [Clamp(k)];
      num := num + 1;
    }
    more, k := true, k + 1;
  }

  lemma {:induction false} CodeNotEmpty(b: Band, got: seq<Token>, r: nat, s: int, run: nat)
    requires CodeOf(b, got, r, s, run)
    ensures got != []
  {
  }

  /** Having read got, the loop is at position k with the block d and the new positions newnz. */
  ghost predicate Looped(b: Band, got: seq<Token>, d0: seq<int>, k: nat, d: seq<int>, newnz: seq<nat>)
    requires BandOk(b) && |d0| == |d| == 64 && InBlock(newnz)
  {
    forall more: seq<Token> :: RefineLoop(b, got + more, b.ss, d0, []) == RefineLoop(b, more, k, d, newnz)
  }

  lemma {:induction false} LoopedNone(b: Band, d0: seq<int>)
    requires BandOk(b) && |d0| == 64
    ensures Looped(b, [], d0, b.ss, d0, [])
  {
    hide RefineLoop;
    forall more: seq<Token> ensures RefineLoop(b, [] + more, b.ss, d0, []) == RefineLoop(b, more, b.ss, d0, []) {
      assert [] + more == more;
    }
  }

  /** A round more, and what the loop amounts to if it was the last. */
  lemma {:induction false} LoopedRound(b: Band, got: seq<Token>, part: seq<Token>, d0: seq<int>, k: nat, d: seq<int>, newnz: seq<nat>)
    requires BandOk(b) && |d0| == |d| == 64 && InBlock(newnz) && Looped(b, got, d0, k, d, newnz)
    ensures var o := LoopRound(b, part, k, d, newnz);
      && (o.Next? && o.ts == [] ==> Looped(b, got + part, d0, o.k, o.d, o.newnz))
      && (o.Halt? ==> RefineLoop(b, got + part, b.ss, d0, []) == o.o)
  {
    hide LoopRound, RefineLoop;
    var o := LoopRound(b, part, k, d, newnz);
    P.LoopUnfold(b, part, k, d, newnz);
    if o.Next? && o.ts == [] {
      forall more: seq<Token> ensures RefineLoop(b, (got + part) + more, b.ss, d0, []) == RefineLoop(b, more, o.k, o.d, o.newnz) {
        assert (got + part) + more == got + (part + more) && [] + more == more;
        S.RoundLonger(b, part, more, k, d, newnz);
        P.LoopUnfold(b, part + more, k, d, newnz);
      }
    }
  }

  lemma {:induction false} LoopedPast(b: Band, got: seq<Token>, d0: seq<int>, k: nat, d: seq<int>, newnz: seq<nat>)
    requires BandOk(b) && |d0| == |d| == 64 && InBlock(newnz) && Looped(b, got, d0, k, d, newnz) && k > b.se
    ensures RefineLoop(b, got, b.ss, d0, []) == LoopDone([], k, 0, d, newnz)
  {
    hide RefineLoop;
    assert got + [] == got;
    P.LoopPast(b, [], k, d, newnz);
  }

  lemma {:induction false} LoopedRest(b: Band, ts: seq<Token>, n: nat, d0: seq<int>, k: nat, d: seq<int>, newnz: seq<nat>)
    requires BandOk(b) && |d0| == |d| == 64 && InBlock(newnz) && n <= |ts| && Looped(b, ts[..n], d0, k, d, newnz)
    requires RefineLoop(b, ts, b.ss, d0, []).LoopDone?
    ensures var o := LoopRound(b, ts[n..], k, d, newnz); o.Next? || o.o.LoopDone?
  {
    hide LoopRound, RefineLoop;
    Whole(ts, n);
    P.LoopUnfold(b, ts[n..], k, d, newnz);
  }

  /** The loop of decode_mcu_AC_refine taken when no EOB run is pending. */
  method RefineNew(rd: R.Reader, ghost x: Tables, d: DTbl, b: Band, block: array<int>, order: seq<nat>, newnzPos: array<nat>,
                   ghost ts: seq<Token>, ghost later: seq<Byte>, ghost e: Stream)
    returns (ok: bool, k: nat, run: nat, num: nat, ghost newnz: seq<nat>, ghost n: nat)
    requires BandOk(b) && Fits(block, order) && newnzPos.Length == 64 && Follows(rd, x, ts, later, e) && TableFor(x, b.tbl, d)
    requires RefineLoop(b, ts, b.ss, View(block, order), []).LoopDone?
    modifies rd, block, newnzPos
    ensures rd.Ending() == old(rd.Ending()) && (!ok ==> rd.Ending().0 == 0) && n <= |ts|
    ensures P.Noted(newnzPos, num, newnz, order)
    ensures ok ==> Follows(rd, x, ts[n..], later, e)
    ensures RefineLoop(b, ts[..n], b.ss, old(View(block, order)), []) ==
      if ok then LoopDone([], k, run, View(block, order), newnz) else LoopStarved(Undo(View(block, order), newnz))
  {
    hide View, IsZigzag, RefineLoop, LoopRound, Undo, Follows, TableFor, Looped, R.Coming;
    ghost var d0 := View(block, order);
    ok, k, run, num, newnz, n := true, b.ss, 0, 0, [], 0;
    LoopedNone(b, d0);
    assert ts[..0] == [] && ts[0..] == ts;
    while k <= b.se
      invariant b.ss <= k && run == 0 && num <= k - b.ss && num <= 63 && n <= |ts| && ok && rd.Ending() == old(rd.Ending())
      invariant P.Noted(newnzPos, num, newnz, order) && Follows(rd, x, ts[n..], later, e)
      invariant Looped(b, ts[..n], d0, k, View(block, order), newnz)
      decreases |ts| - n
    {
      LoopedRest(b, ts, n, d0, k, View(block, order), newnz);
      ghost var k1, d1, newnz1, c, m := k, View(block, order), newnz, n, 0;
      var more;
      ok, more, k, run, num, newnz, m := RefineRound(rd, x, d, b, block, order, newnzPos, k, num, newnz, ts[n..], later, e);
      n := c + m;
      Parts(ts, c, m);
      LoopedRound(b, ts[..c], ts[c..][..m], d0, k1, d1, newnz1);
      if !ok || !more {
        return;
      }
    }
    LoopedPast(b, ts[..n], d0, k, View(block, order), newnz);
  }

  lemma {:induction false} RefineIsTail(b: Band, ts: seq<Token>, run: nat, d: seq<int>)
    requires BandOk(b) && |d| == 64 && run > 0
    ensures DecodeRefine(b, ts, run, d) == FinishRun(RefineTail(b, ts, b.ss, d), run, [])
  {
    hide RefineTail;
  }

  /** What the loop read, then the rest. */
  lemma {:induction false} RefineIsLoop(b: Band, got: seq<Token>, rest: seq<Token>, d0: seq<int>, k: nat, run: nat, d: seq<int>, newnz: seq<nat>)
    requires BandOk(b) && |d0| == |d| == 64 && InBlock(newnz) && RefineLoop(b, got, b.ss, d0, []) == LoopDone([], k, run, d, newnz)
    ensures DecodeRefine(b, got + rest, 0, d0) ==
      if run == 0 then BlockDone(rest, 0, d) else FinishRun(RefineTail(b, rest, k, d), run, newnz)
  {
    hide RefineTail, RefineLoop;
    S.LoopLonger(b, got, rest, b.ss, d0, []);
    assert [] + rest == rest;
  }

  lemma {:induction false} RefineHasLoop(b: Band, ts: seq<Token>, d: seq<int>)
    requires BandOk(b) && |d| == 64 && DecodeRefine(b, ts, 0, d).BlockDone?
    ensures RefineLoop(b, ts, b.ss, d, []).LoopDone?
  {
    hide RefineTail, RefineLoop;
  }

  lemma {:induction false} FinishCases(o: SkipOut, run: nat, newnz: seq<nat>)
    requires run > 0 && (o.SkipStarved? ==> |o.d| == 64 && InBlock(newnz))
    ensures FinishRun(o, run, newnz).BlockDone? <==> o.SkipTo?
    ensures o.SkipTo? ==> FinishRun(o, run, newnz) == BlockDone(o.ts, run - 1, o.d)
    ensures o.SkipStarved? ==> FinishRun(o, run, newnz) == BlockStarved(Undo(o.d, newnz))
  {
    hide Undo;
  }

  /** decode_mcu_AC_refine, from the bits: n tokens read.  A call that runs out of input keeps
      the correction bits it applied and takes back its new coefficients. */
  method DecodeRefinement(rd: R.Reader, ghost x: Tables, d: DTbl, b: Band, run0: nat, block: array<int>, order: seq<nat>,
                          ghost ts: seq<Token>, ghost later: seq<Byte>, ghost e: Stream)
    returns (ok: bool, run: nat, ghost n: nat)
    requires BandOk(b) && Fits(block, order) && Follows(rd, x, ts, later, e) && TableFor(x, b.tbl, d)
    requires DecodeRefine(b, ts, run0, View(block, order)).BlockDone?
    modifies rd, block
    ensures rd.Ending() == old(rd.Ending()) && (!ok ==> rd.Ending().0 == 0) && n <= |ts|
    ensures ok ==> Follows(rd, x, ts[n..], later, e)
    ensures DecodeRefine(b, ts[..n], run0, old(View(block, order))) ==
      if ok then BlockDone([], run, View(block, order)) else BlockStarved(View(block, order))
  {
    hide View, IsZigzag, RefineLoop, RefineTail, DecodeRefine, FinishRun, Undo, Follows, TableFor, R.Coming;
    ghost var d0 := View(block, order);
    var newnzPos := new nat[64](_ => 0);
    var k: nat, num: nat := b.ss, 0;
    ghost var newnz: seq<nat>, c: nat, m: nat := [], 0, 0;
    ok, run, n := true, run0, 0;
    if run == 0 {
      RefineHasLoop(b, ts, d0);
      ok, k, run, num, newnz, n := RefineNew(rd, x, d, b, block, order, newnzPos, ts, later, e);
      c := n;
      if ok {
        Whole(ts, n);
        RefineIsLoop(b, ts[..n], ts[n..], d0, k, run, View(block, order), newnz);
        RefineIsLoop(b, ts[..n], [], d0, k, run, View(block, order), newnz);
        if run == 0 {
          return;
        }
      } else {
        RefineStarves(b, ts[..n], d0);
      }
    } else {
      RefineIsTail(b, ts, run, d0);
      assert ts[0..] == ts;
    }
    if ok {
      ghost var d1 := View(block, order);
      FinishCases(RefineTail(b, ts[c..], k, d1), run, newnz);
      ok, m := RefineRest(rd, x, b, block, order, k, ts[c..], later, e);
      n := c + m;
      Parts(ts, c, m);
      FinishCases(RefineTail(b, ts[c..][..m], k, d1), run, newnz);
      if run0 == 0 {
        RefineIsLoop(b, ts[..c], ts[c..][..m], d0, k, run, d1, newnz);
      } else {
        assert ts[c..][..m] == ts[..n];
        RefineIsTail(b, ts[..n], run, d0);
      }
      run := run - 1;
    }
    if !ok {
      P.UndoNew(block, order, newnzPos, num, newnz);
    }
  }

  lemma {:induction false} RefineStarves(b: Band, got: seq<Token>, d0: seq<int>)
    requires BandOk(b) && |d0| == 64 && RefineLoop(b, got, b.ss, d0, []).LoopStarved?
    ensures DecodeRefine(b, got, 0, d0) == BlockStarved(RefineLoop(b, got, b.ss, d0, []).d)
  {
    hide RefineTail, RefineLoop;
  }

  // ----- first scans -----

  /** Having read got, the loop is at position k with the block d. */
  ghost predicate Scanned(b: Band, got: seq<Token>, k0: nat, d0: seq<int>, k: nat, d: seq<int>)
    requires BandOk(b) && |d0| == |d| == 64
  {
    forall more: seq<Token> :: FirstLoop(b, got + more, k0, d0) == FirstLoop(b, more, k, d)
  }

  lemma {:induction false} ScannedNone(b: Band, k0: nat, d0: seq<int>)
    requires BandOk(b) && |d0| == 64
    ensures Scanned(b, [], k0, d0, k0, d0)
  {
    hide FirstLoop;
    forall more: seq<Token> ensures FirstLoop(b, [] + more, k0, d0) == FirstLoop(b, more, k0, d0) {
      assert [] + more == more;
    }
  }

  /** A code of a first scan and what it does to the block. */
  predicate FirstCodeOf(b: Band, got: seq<Token>, k: nat, d: seq<int>, k1: nat, d1: seq<int>, run: nat)
    requires BandOk(b) && |d| == 64
  {
    && got != [] && got[0].Sym? && got[0].tbl == b.tbl && got[0].s < 256
    && var r, n := got[0].s / 16, got[0].s % 16;
      if n != 0 then
        && |got| == 2 && got[1].Bits? && got[1].n == n && run == 0 && k1 == k + r + 1
        && d1 == d[Clamp(k + r) := HuffExtend(got[1].v, n) * Pow2(b.al)]
      else if r == 15 then |got| == 1 && run == 0 && k1 == k + 16 && d1 == d
      else if r == 0 then |got| == 1 && run == 1 && d1 == d
      else |got| == 2 && got[1].Bits? && got[1].n == r && run == Pow2(r) + got[1].v && d1 == d
  }

  predicate FirstCodeComes(b: Band, ts: seq<Token>) {
    match ReadSym(ts, b.tbl)
    case GotSym(v, ts1) =>
      if v % 16 != 0 then ReadBits(ts1, v % 16).Got? else if 0 < v / 16 < 15 then ReadBits(ts1, v / 16).Got? else true
    case _ => false
  }

  lemma {:induction false} FirstHasCode(b: Band, ts: seq<Token>, k: nat, d: seq<int>)
    requires BandOk(b) && |d| == 64 && k <= b.se && FirstLoop(b, ts, k, d).FirstDone?
    ensures FirstCodeComes(b, ts)
  {
    hide Pow2, HuffExtend, FirstLoop;
    P.FirstLoopUnfold(b, ts, k, d);
  }

  lemma {:induction false} FirstOfCode(b: Band, got: seq<Token>, more: seq<Token>, k: nat, d: seq<int>, k1: nat, d1: seq<int>, run: nat)
    requires BandOk(b) && |d| == 64 && k <= b.se && FirstCodeOf(b, got, k, d, k1, d1, run)
    ensures |d1| == 64
    ensures FirstLoop(b, got + more, k, d) == if run > 0 then FirstDone(more, run - 1, d1) else FirstLoop(b, more, k1, d1)
  {
    hide Pow2, HuffExtend, FirstLoop;
    var all := got + more;
    P.FirstLoopUnfold(b, all, k, d);
    assert all[0] == got[0];
    if |got| == 1 {
      assert all[1..] == more;
    } else {
      assert all[1..][0] == got[1] && all[1..][1..] == more;
    }
  }

  lemma {:induction false} FirstOfPart(b: Band, got: seq<Token>, k: nat, d: seq<int>)
    requires BandOk(b) && |d| == 64 && k <= b.se && PartOf(b, got)
    ensures FirstLoop(b, got, k, d) == FirstStarved(d)
  {
    hide Pow2, HuffExtend, FirstLoop;
    P.FirstLoopUnfold(b, got, k, d);
  }

  lemma {:induction false} ScannedCode(b: Band, got: seq<Token>, part: seq<Token>, k0: nat, d0: seq<int>, k: nat, d: seq<int>, k1: nat, d1: seq<int>, run: nat)
    requires BandOk(b) && |d0| == |d| == 64 && k <= b.se && Scanned(b, got, k0, d0, k, d) && FirstCodeOf(b, part, k, d, k1, d1, run)
    ensures |d1| == 64
    ensures run == 0 ==> Scanned(b, got + part, k0, d0, k1, d1)
    ensures run > 0 ==> FirstLoop(b, got + part, k0, d0) == FirstDone([], run - 1, d1)
  {
    hide FirstLoop, FirstCodeOf;
    FirstOfCode(b, part, [], k, d, k1, d1, run);
    assert part + [] == part;
    if run == 0 {
      forall more: seq<Token> ensures FirstLoop(b, (got + part) + more, k0, d0) == FirstLoop(b, more, k1, d1) {
        assert (got + part) + more == got + (part + more);
        FirstOfCode(b, part, more, k, d, k1, d1, run);
      }
    }
  }

  lemma {:induction false} ScannedPart(b: Band, got: seq<Token>, part: seq<Token>, k0: nat, d0: seq<int>, k: nat, d: seq<int>)
    requires BandOk(b) && |d0| == |d| == 64 && k <= b.se && Scanned(b, got, k0, d0, k, d) && PartOf(b, part)
    ensures FirstLoop(b, got + part, k0, d0) == FirstStarved(d)
  {
    hide FirstLoop, PartOf;
    FirstOfPart(b, part, k, d);
  }

  lemma {:induction false} ScannedPast(b: Band, got: seq<Token>, k0: nat, d0: seq<int>, k: nat, d: seq<int>)
    requires BandOk(b) && |d0| == |d| == 64 && Scanned(b, got, k0, d0, k, d) && k > b.se
    ensures FirstLoop(b, got, k0, d0) == FirstDone([], 0, d)
  {
    hide FirstLoop;
    assert got + [] == got;
    P.FirstLoopPast(b, [], k, d);
  }

  lemma {:induction false} ScannedRest(b: Band, ts: seq<Token>, n: nat, k0: nat, d0: seq<int>, k: nat, d: seq<int>)
    requires BandOk(b) && |d0| == |d| == 64 && n <= |ts| && Scanned(b, ts[..n], k0, d0, k, d) && FirstLoop(b, ts, k0, d0).FirstDone?
    ensures FirstLoop(b, ts[n..], k, d).FirstDone?
  {
    hide FirstLoop;
    Whole(ts, n);
  }

  /** A symbol of a first scan: a coefficient, a ZRL or an EOB run. */
  method ReadFirst(rd: R.Reader, ghost x: Tables, d: DTbl, b: Band, block: array<int>, order: seq<nat>, k0: nat,
                   ghost ts: seq<Token>, ghost later: seq<Byte>, ghost e: Stream) returns (ok: bool, k: nat, run: nat, ghost n: nat)
    requires BandOk(b) && Fits(block, order) && k0 <= b.se
    requires Follows(rd, x, ts, later, e) && TableFor(x, b.tbl, d) && FirstCodeComes(b, ts)
    modifies rd, block
    ensures rd.Ending() == old(rd.Ending()) && (!ok ==> rd.Ending().0 == 0) && n <= |ts|
    ensures ok ==> n > 0 && Follows(rd, x, ts[n..], later, e)
    ensures ok ==> FirstCodeOf(b, ts[..n], k0, old(View(block, order)), k, View(block, order), run)
    ensures !ok ==> PartOf(b, ts[..n]) && View(block, order) == old(View(block, order))
  {
    hide Follows, R.Coming, TableFor, View, IsZigzag, HuffExtend;
    assert Pow2(0) == 1;
    hide Pow2;
    k, run, n := k0, 0, 0;
    var symbol, v;
    ok, symbol := NextSym(rd, x, d, b.tbl, ts, later, e);
    if !ok {
      return;
    }
    var r, s := symbol / 16, symbol % 16;
    n := 1;
    assert ts[..1] == [ts[0]];
    if s != 0 {
      k := k + r;
      ok, v := NextBits(rd, x, s, ts[1..], later, e);
      if !ok {
        return;
      }
      TwoRead(ts);
      n := 2;
      Store(block, order, k, HuffExtend(v, s) * Pow2(b.al));
      k := k + 1;
    } else if r == 15 {
      k := k + 16;
    } else {
      run := Pow2(r);
      if r != 0 {
        ok, v := NextBits(rd, x, r, ts[1..], later, e);
        if !ok {
          return;
        }
        TwoRead(ts);
        n := 2;
        run := run + v;
      }
    }
  }

  /** decode_mcu_AC_first outside an EOB run, from the bits: n tokens read. */
  method DecodeFirst(rd: R.Reader, ghost x: Tables, d: DTbl, b: Band, block: array<int>, order: seq<nat>,
                     ghost ts: seq<Token>, ghost later: seq<Byte>, ghost e: Stream) returns (ok: bool, run: nat, ghost n: nat)
    requires BandOk(b) && Fits(block, order) && Follows(rd, x, ts, later, e) && TableFor(x, b.tbl, d)
    requires FirstLoop(b, ts, b.ss, View(block, order)).FirstDone?
    modifies rd, block
    ensures rd.Ending() == old(rd.Ending()) && (!ok ==> rd.Ending().0 == 0) && n <= |ts|
    ensures ok ==> Follows(rd, x, ts[n..], later, e)
    ensures FirstLoop(b, ts[..n], b.ss, old(View(block, order))) ==
      if ok then FirstDone([], run, View(block, order)) else FirstStarved(View(block, order))
  {
    hide View, IsZigzag, FirstLoop, Follows, TableFor, Scanned, FirstCodeOf, PartOf, FirstCodeComes, R.Coming;
    ghost var d0 := View(block, order);
    ok, run, n := true, 0, 0;
    var k: nat := b.ss;
    ScannedNone(b, k, d0);
    assert ts[..0] == [] && ts[0..] == ts;
    while k <= b.se
      invariant run == 0 && n <= |ts| && ok && rd.Ending() == old(rd.Ending())
      invariant Scanned(b, ts[..n], b.ss, d0, k, View(block, order)) && Follows(rd, x, ts[n..], later, e)
      decreases |ts| - n
    {
      ghost var k1, d1, c, m := k, View(block, order), n, 0;
      ScannedRest(b, ts, n, b.ss, d0, k1, d1);
      FirstHasCode(b, ts[n..], k1, d1);
      ok, k, run, m := ReadFirst(rd, x, d, b, block, order, k, ts[n..], later, e);
      n := c + m;
      Parts(ts, c, m);
      if !ok {
        ScannedPart(b, ts[..c], ts[c..][..m], b.ss, d0, k1, d1);
        return;
      }
      ScannedCode(b, ts[..c], ts[c..][..m], b.ss, d0, k1, d1, k, View(block, order), run);
      if run > 0 {
        run := run - 1;
        return;
      }
    }
    ScannedPast(b, ts[..n], b.ss, d0, k, View(block, order));
  }

  // ----- a block -----

  /** decode_mcu_AC_first or decode_mcu_AC_refine after the restart check, from the bits: n tokens
      read, all of them by a finished block. */
  method DecodeBlock(rd: R.Reader, ghost x: Tables, d: DTbl, b: Band, run0: nat, block: array<int>, order: seq<nat>,
                     ghost ts: seq<Token>, ghost later: seq<Byte>, ghost e: Stream) returns (ok: bool, run: nat, ghost n: nat)
    requires BandOk(b) && Fits(block, order) && Follows(rd, x, ts, later, e) && TableFor(x, b.tbl, d)
    requires AC.DecodeBlock(b, ts, run0, View(block, order)).BlockDone?
    modifies rd, block
    ensures rd.Ending() == old(rd.Ending()) && (!ok ==> rd.Ending().0 == 0) && n <= |ts|
    ensures ok ==> Follows(rd, x, ts[n..], later, e)
    ensures AC.DecodeBlock(b, ts[..n], run0, old(View(block, order))) ==
      if ok then BlockDone([], run, View(block, order)) else BlockStarved(View(block, order))
  {
    hide View, IsZigzag, FirstLoop, DecodeRefine, Follows, TableFor, R.Coming;
    if b.ah == 0 {
      if run0 > 0 {
        ok, run, n := true, run0 - 1, 0;
        assert ts[..0] == [] && ts[0..] == ts;
      } else {
        ok, run, n := DecodeFirst(rd, x, d, b, block, order, ts, later, e);
      }
    } else {
      ok, run, n := DecodeRefinement(rd, x, d, b, run0, block, order, ts, later, e);
    }
  }

  /** The block a failed call leaves gives, with all of the tokens, what the block gave as it was. */
  lemma {:induction false} Resumes(b: Band, ts: seq<Token>, n: nat, run: nat, d: seq<int>, now: seq<int>)
    requires BandOk(b) && |d| == |now| == 64 && n <= |ts| && AC.DecodeBlock(b, ts[..n], run, d) == BlockStarved(now)
    ensures AC.DecodeBlock(b, ts, run, now) == AC.DecodeBlock(b, ts, run, d)
  {
    hide AC.DecodeBlock;
    Whole(ts, n);
    S.BlockResumes(b, ts[..n], ts[n..], run, d);
  }

  /** What a finished call did is what all of the tokens do to the block. */
  lemma {:induction false} Finishes(b: Band, ts: seq<Token>, n: nat, run: nat, d: seq<int>, run1: nat, now: seq<int>)
    requires BandOk(b) && |d| == |now| == 64 && n <= |ts| && AC.DecodeBlock(b, ts[..n], run, d) == BlockDone([], run1, now)
    ensures AC.DecodeBlock(b, ts, run, d) == BlockDone(ts[n..], run1, now)
  {
    hide AC.DecodeBlock;
    Whole(ts, n);
    S.BlockLonger(b, ts[..n], ts[n..], run, d);
    assert [] + ts[n..] == ts[n..];
  }
}
