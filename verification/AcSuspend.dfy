// Input suspension in AC refinement.  A decode that runs out of data leaves behind a block
// in which correction bits have been applied but newly nonzero coefficients are undone;
// decoding again from that block must give what an uninterrupted decode gives.
module AcSuspend {
  import opened Arith
  import opened Coefficients
  import opened Tokens
  import opened AcRefine
  import opened AcFirst
  import opened AcScan

  /** Applying the same correction bit a second time changes nothing: the first time left
      bit al set (two's complement), and the coefficient nonzero. */
  lemma {:induction false} CorrectIdempotent(v: int, bit: nat, al: nat)
    ensures Correct(Correct(v, bit, al), bit, al) == Correct(v, bit, al)
    ensures v != 0 ==> Correct(v, bit, al) != 0
  {
    var p := Pow2(al);
    if bit != 0 && (v / p) % 2 == 0 {
      var q, s := v / p, v % p;
      assert v == q * p + s;
      assert (q + 1) * p == q * p + p && (q - 1) * p == q * p - p;
      if v >= 0 {
        DivUnique(v + p, p, q + 1, s);
      } else {
        DivUnique(v - p, p, q - 1, s);
      }
    }
  }

  /** e is d up to position k, and s from there on. */
  ghost predicate Splice(d: seq<int>, s: seq<int>, e: seq<int>, k: nat) {
    && |d| == |s| == |e|
    && forall j :: 0 <= j < |d| ==> e[j] == if j < k then d[j] else s[j]
  }

  lemma {:induction false} ReadLonger(ts: seq<Token>, more: seq<Token>, n: nat, tbl: Table)
    ensures ReadBits(ts, n).Got? ==> ReadBits(ts + more, n) == Got(ReadBits(ts, n).v, ReadBits(ts, n).rest + more)
    ensures ReadBits(ts, n).WrongKind? ==> ReadBits(ts + more, n).WrongKind?
    ensures ReadSym(ts, tbl).GotSym? ==> ReadSym(ts + more, tbl) == GotSym(ReadSym(ts, tbl).s, ReadSym(ts, tbl).rest + more)
    ensures ReadSym(ts, tbl).WrongSym? ==> ReadSym(ts + more, tbl).WrongSym?
  {
    if ts != [] {
      assert (ts + more)[1..] == ts[1..] + more;
    }
  }

  // ----- skipping -----

  lemma {:induction false} SkipFrame(b: Band, ts: seq<Token>, k: nat, r: nat, d: seq<int>)
    requires b.se < |d|
    ensures var o := Skip(b, ts, k, r, d);
      && (o.SkipTo? ==> (forall j :: 0 <= j < |d| && (j < k || j >= o.k) ==> o.d[j] == d[j])
                        && (k <= b.se && o.k <= b.se ==> d[o.k] == 0))
      && (o.SkipStarved? ==> forall j :: 0 <= j < |d| && j < k ==> o.d[j] == d[j])
    decreases b.se + 1 - k
  {
    hide Correct;
    if k <= b.se {
      if d[k] != 0 {
        var o := ReadBits(ts, 1);
        if o.Got? {
          SkipFrame(b, o.rest, k + 1, r, d[k := Correct(d[k], o.v, b.al)]);
        }
      } else if r > 0 {
        SkipFrame(b, ts, k + 1, r - 1, d);
      }
    }
  }

  /** More input does not change a skip that finished. */
  lemma {:induction false} SkipLonger(b: Band, ts: seq<Token>, more: seq<Token>, k: nat, r: nat, d: seq<int>)
    requires b.se < |d|
    ensures var o := Skip(b, ts, k, r, d);
      && (o.SkipTo? ==> Skip(b, ts + more, k, r, d) == SkipTo(o.ts + more, o.k, o.d))
      && (o.SkipGarbled? ==> Skip(b, ts + more, k, r, d) == SkipGarbled)
    decreases b.se + 1 - k
  {
    hide Correct;
    ReadLonger(ts, more, 1, b.tbl);
    if k <= b.se {
      if d[k] != 0 {
        var o := ReadBits(ts, 1);
        if o.Got? {
          SkipLonger(b, o.rest, more, k + 1, r, d[k := Correct(d[k], o.v, b.al)]);
        }
      } else if r > 0 {
        SkipLonger(b, ts, more, k + 1, r - 1, d);
      }
    }
  }

  /** Skipping again over a stretch already corrected reads the same bits and changes nothing. */
  lemma {:induction false} SkipAgain(b: Band, ts: seq<Token>, k: nat, r: nat, d: seq<int>, e: seq<int>)
    requires b.se < |d| == |e|
    requires var o := Skip(b, ts, k, r, d);
      o.SkipTo? && (forall j :: k <= j < o.k && j <= b.se ==> e[j] == o.d[j]) && (k <= b.se && o.k <= b.se ==> e[o.k] == 0)
    ensures var o := Skip(b, ts, k, r, d); Skip(b, ts, k, r, e) == SkipTo(o.ts, o.k, e)
    decreases b.se + 1 - k
  {
    if k <= b.se {
      if d[k] != 0 {
        var o := ReadBits(ts, 1);
        var d1 := d[k := Correct(d[k], o.v, b.al)];
        SkipFrame(b, o.rest, k + 1, r, d1);
        CorrectIdempotent(d[k], o.v, b.al);
        hide Correct;
        assert e[k] == d1[k] && e[k := e[k]] == e;
        SkipAgain(b, o.rest, k + 1, r, d1, e);
      } else if r > 0 {
        SkipFrame(b, ts, k + 1, r - 1, d);
        hide Correct;
        SkipAgain(b, ts, k + 1, r - 1, d, e);
      }
    }
  }

  /** A skip that starved is resumed, from what it left, as if it had not been interrupted. */
  lemma {:induction false} SkipResumes(b: Band, ts: seq<Token>, more: seq<Token>, k: nat, r: nat, d: seq<int>, e: seq<int>)
    requires b.se < |d|
    requires var o := Skip(b, ts, k, r, d); o.SkipStarved? && Splice(d, o.d, e, k)
    ensures Skip(b, ts + more, k, r, e) == Skip(b, ts + more, k, r, d)
    decreases b.se + 1 - k
  {
    ReadLonger(ts, more, 1, b.tbl);
    if d[k] != 0 {
      var o := ReadBits(ts, 1);
      if o.Got? {
        var d1 := d[k := Correct(d[k], o.v, b.al)];
        SkipFrame(b, o.rest, k + 1, r, d1);
        CorrectIdempotent(d[k], o.v, b.al);
        hide Correct;
        assert e[k] == d1[k] && e[k := e[k]] == e;
        SkipResumes(b, o.rest, more, k + 1, r, d1, e);
      } else {
        assert e == d;
      }
    } else {
      SkipFrame(b, ts, k + 1, r - 1, d);
      hide Correct;
      assert e[k] == 0;
      SkipResumes(b, ts, more, k + 1, r - 1, d, e);
    }
  }

  // ----- correction bits after the EOB -----

  lemma {:induction false} TailFrame(b: Band, ts: seq<Token>, k: nat, d: seq<int>)
    requires b.se < |d|
    ensures var o := RefineTail(b, ts, k, d);
      o.SkipTo? || o.SkipStarved? ==> forall j :: 0 <= j < |d| && j < k ==> o.d[j] == d[j]
    decreases b.se + 1 - k
  {
    hide Correct;
    if k <= b.se {
      if d[k] != 0 {
        var o := ReadBits(ts, 1);
        if o.Got? {
          TailFrame(b, o.rest, k + 1, d[k := Correct(d[k], o.v, b.al)]);
        }
      } else {
        TailFrame(b, ts, k + 1, d);
      }
    }
  }

  lemma {:induction false} TailLonger(b: Band, ts: seq<Token>, more: seq<Token>, k: nat, d: seq<int>)
    requires b.se < |d|
    ensures var o := RefineTail(b, ts, k, d);
      && (o.SkipTo? ==> RefineTail(b, ts + more, k, d) == SkipTo(o.ts + more, o.k, o.d))
      && (o.SkipGarbled? ==> RefineTail(b, ts + more, k, d) == SkipGarbled)
    decreases b.se + 1 - k
  {
    hide Correct;
    ReadLonger(ts, more, 1, b.tbl);
    if k <= b.se {
      if d[k] != 0 {
        var o := ReadBits(ts, 1);
        if o.Got? {
          TailLonger(b, o.rest, more, k + 1, d[k := Correct(d[k], o.v, b.al)]);
        }
      } else {
        TailLonger(b, ts, more, k + 1, d);
      }
    }
  }

  lemma {:induction false} TailResumes(b: Band, ts: seq<Token>, more: seq<Token>, k: nat, d: seq<int>, e: seq<int>)
    requires b.se < |d|
    requires var o := RefineTail(b, ts, k, d); o.SkipStarved? && Splice(d, o.d, e, k)
    ensures RefineTail(b, ts + more, k, e) == RefineTail(b, ts + more, k, d)
    decreases b.se + 1 - k
  {
    ReadLonger(ts, more, 1, b.tbl);
    if d[k] != 0 {
      var o := ReadBits(ts, 1);
      if o.Got? {
        var d1 := d[k := Correct(d[k], o.v, b.al)];
        TailFrame(b, o.rest, k + 1, d1);
        CorrectIdempotent(d[k], o.v, b.al);
        hide Correct;
        assert e[k] == d1[k] && e[k := e[k]] == e;
        TailResumes(b, o.rest, more, k + 1, d1, e);
      } else {
        assert e == d;
      }
    } else {
      TailFrame(b, ts, k + 1, d);
      hide Correct;
      TailResumes(b, ts, more, k + 1, d, e);
    }
  }

  // ----- the main loop -----

  ghost predicate Below(newnz: seq<nat>, k: nat) {
    forall i :: 0 <= i < |newnz| ==> newnz[i] < k && newnz[i] < 64
  }

  lemma {:induction false} NewValueNonzero(v: nat, al: nat)
    ensures NewValue(v, al) != 0
  {
  }

  /** A round touches nothing before position k, except that starving undoes newnz; what it
      passes is stable, and what it makes nonzero was zero. */
  lemma {:induction false} RoundFrame(b: Band, ts: seq<Token>, k: nat, d: seq<int>, newnz: seq<nat>)
    requires BandOk(b) && |d| == 64 && Below(newnz, k)
    ensures var o := LoopRound(b, ts, k, d, newnz);
      match o
      case Next(ts1, k1, d1, newnz1) => k < k1 && (k1 <= b.se + 1 ==>
        && Below(newnz1, k1) && d[k1 - 1] == 0
        && (forall j :: 0 <= j < k ==> d1[j] == d[j] && (j in newnz1 <==> j in newnz))
        && (forall j :: k1 <= j < 64 ==> d1[j] == d[j])
        && ((newnz1 == newnz && d1[k1 - 1] == 0) || newnz1 == newnz + [k1 - 1]))
      case Halt(LoopDone(_, k1, run, d1, newnz1)) => run > 0 ==> k1 == k <= b.se && d1 == d && newnz1 == newnz
      case Halt(LoopStarved(dS)) => forall j :: 0 <= j < k && j < 64 ==> dS[j] == if j in newnz then 0 else d[j]
      case _ => true
  {
    hide Correct, NewValue, Pow2, Skip, Undo;
    if k <= b.se && ReadSym(ts, b.tbl).GotSym? {
      var s, ts1 := ReadSym(ts, b.tbl).s, ReadSym(ts, b.tbl).rest;
      if s % 16 == 0 {
        SkipFrame(b, ts1, k, s / 16, d);
      } else if ReadBits(ts1, 1).Got? {
        SkipFrame(b, ReadBits(ts1, 1).rest, k, s / 16, d);
        NewValueNonzero(ReadBits(ts1, 1).v, b.al);
      }
    }
  }

  /** RoundFrame over the whole loop. */
  lemma {:induction false} LoopFrame(b: Band, ts: seq<Token>, k: nat, d: seq<int>, newnz: seq<nat>)
    requires BandOk(b) && |d| == 64 && Below(newnz, k)
    ensures match RefineLoop(b, ts, k, d, newnz)
      case LoopDone(_, k1, run, d1, newnz1) => run > 0 ==>
        && k <= k1 <= b.se && Below(newnz1, k1)
        && (forall j :: 0 <= j < k ==> d1[j] == d[j] && (j in newnz1 <==> j in newnz))
        && (forall j :: k1 <= j < 64 ==> d1[j] == d[j])
      case LoopStarved(dS) => forall j :: 0 <= j < k && j < 64 ==> dS[j] == if j in newnz then 0 else d[j]
      case LoopGarbled => true
    decreases |ts|
  {
    RoundFrame(b, ts, k, d, newnz);
    hide LoopRound;
    var o := LoopRound(b, ts, k, d, newnz);
    if o.Next? && o.k <= b.se + 1 {
      LoopFrame(b, o.ts, o.k, o.d, o.newnz);
    } else if o.Next? {
      assert LoopRound(b, o.ts, o.k, o.d, o.newnz) == Halt(LoopDone(o.ts, o.k, 0, o.d, o.newnz)) by {
        PastEnd(b, o.ts, o.k, o.d, o.newnz);
      }
    }
  }

  lemma {:induction false} PastEnd(b: Band, ts: seq<Token>, k: nat, d: seq<int>, newnz: seq<nat>)
    requires BandOk(b) && |d| == 64 && InBlock(newnz) && k > b.se
    ensures LoopRound(b, ts, k, d, newnz) == Halt(LoopDone(ts, k, 0, d, newnz))
  {
  }

  /** More input does not change a round that did not starve. */
  lemma {:induction false} RoundLonger(b: Band, ts: seq<Token>, more: seq<Token>, k: nat, d: seq<int>, newnz: seq<nat>)
    requires BandOk(b) && |d| == 64 && InBlock(newnz)
    ensures match LoopRound(b, ts, k, d, newnz)
      case Next(ts1, k1, d1, newnz1) => LoopRound(b, ts + more, k, d, newnz) == Next(ts1 + more, k1, d1, newnz1)
      case Halt(LoopDone(ts1, k1, run, d1, newnz1)) =>
        LoopRound(b, ts + more, k, d, newnz) == Halt(LoopDone(ts1 + more, k1, run, d1, newnz1))
      case Halt(LoopGarbled) => LoopRound(b, ts + more, k, d, newnz) == Halt(LoopGarbled)
      case Halt(LoopStarved(_)) => true
  {
    hide Correct, NewValue, Pow2, Skip, Undo, ReadSym, ReadBits;
    ReadLonger(ts, more, 1, b.tbl);
    if k <= b.se && ReadSym(ts, b.tbl).GotSym? {
      var s, ts1 := ReadSym(ts, b.tbl).s, ReadSym(ts, b.tbl).rest;
      ReadLonger(ts1, more, 1, b.tbl);
      ReadLonger(ts1, more, s / 16, b.tbl);
      if s % 16 == 0 {
        SkipLonger(b, ts1, more, k, s / 16, d);
      } else if ReadBits(ts1, 1).Got? {
        SkipLonger(b, ReadBits(ts1, 1).rest, more, k, s / 16, d);
      }
    }
  }

  /** A round repeated on a block e that already holds its corrections, and zero where it
      makes a coefficient nonzero, ends in the same place and the same state. */
  lemma {:induction false} RoundAgain(b: Band, ts: seq<Token>, k: nat, d: seq<int>, newnz: seq<nat>, e: seq<int>)
    requires BandOk(b) && |d| == |e| == 64 && Below(newnz, k)
    requires var o := LoopRound(b, ts, k, d, newnz);
      && o.Next? && k < o.k <= b.se + 1 && (forall j :: k <= j < o.k - 1 ==> e[j] == o.d[j]) && e[o.k - 1] == 0
    ensures var o := LoopRound(b, ts, k, d, newnz);
      LoopRound(b, ts, k, e, newnz)
      == Next(o.ts, o.k, if o.d[o.k - 1] == 0 then e else e[o.k - 1 := o.d[o.k - 1]], o.newnz)
  {
    hide Correct, NewValue, Pow2, Skip, Undo;
    var s, ts1 := ReadSym(ts, b.tbl).s, ReadSym(ts, b.tbl).rest;
    if s % 16 == 0 {
      SkipFrame(b, ts1, k, s / 16, d);
      SkipAgain(b, ts1, k, s / 16, d, e);
    } else {
      NewValueNonzero(ReadBits(ts1, 1).v, b.al);
      SkipFrame(b, ReadBits(ts1, 1).rest, k, s / 16, d);
      SkipAgain(b, ReadBits(ts1, 1).rest, k, s / 16, d, e);
    }
  }

  lemma {:induction false} RoundResumes(b: Band, ts: seq<Token>, more: seq<Token>, k: nat, d: seq<int>, newnz: seq<nat>, e: seq<int>)
    requires BandOk(b) && |d| == 64 && Below(newnz, k)
    requires var o := LoopRound(b, ts, k, d, newnz); o.Halt? && o.o.LoopStarved? && Splice(d, o.o.d, e, k)
    ensures LoopRound(b, ts + more, k, e, newnz) == LoopRound(b, ts + more, k, d, newnz)
  {
    hide Correct, NewValue, Pow2, Skip, Undo, ReadSym, ReadBits;
    ReadLonger(ts, more, 1, b.tbl);
    if ReadSym(ts, b.tbl).GotSym? {
      var s, ts1 := ReadSym(ts, b.tbl).s, ReadSym(ts, b.tbl).rest;
      ReadLonger(ts1, more, 1, b.tbl);
      var ts2, o := ts1, Skip(b, ts1, k, s / 16, d);
      if s % 16 != 0 && ReadBits(ts1, 1).Got? {
        ts2 := ReadBits(ts1, 1).rest;
        o := Skip(b, ts2, k, s / 16, d);
      }
      if (s % 16 != 0 && ReadBits(ts1, 1).Got?) || (s % 16 == 0 && s / 16 == 15) {
        assert o.SkipStarved? && Splice(d, o.d, e, k);
        SkipResumes(b, ts2, more, k, s / 16, d, e);
      } else {
        assert e == d;
      }
    } else {
      assert e == d;
    }
  }

  lemma {:induction false} LoopLonger(b: Band, ts: seq<Token>, more: seq<Token>, k: nat, d: seq<int>, newnz: seq<nat>)
    requires BandOk(b) && |d| == 64 && InBlock(newnz)
    ensures match RefineLoop(b, ts, k, d, newnz)
      case LoopDone(ts1, k1, run, d1, newnz1) =>
        RefineLoop(b, ts + more, k, d, newnz) == LoopDone(ts1 + more, k1, run, d1, newnz1)
      case LoopGarbled => RefineLoop(b, ts + more, k, d, newnz) == LoopGarbled
      case LoopStarved(_) => true
    decreases |ts|
  {
    RoundLonger(b, ts, more, k, d, newnz);
    hide LoopRound;
    var o := LoopRound(b, ts, k, d, newnz);
    if o.Next? {
      LoopLonger(b, o.ts, more, o.k, o.d, o.newnz);
    }
  }

  /** The loop, having stopped at an EOB, repeated on a block it has already been over. */
  lemma {:induction false} LoopAgain(b: Band, ts: seq<Token>, k: nat, d: seq<int>, newnz: seq<nat>, e: seq<int>)
    returns (e1: seq<int>)
    requires BandOk(b) && |d| == |e| == 64 && Below(newnz, k)
    requires var o := RefineLoop(b, ts, k, d, newnz);
      && o.LoopDone? && o.run > 0
      && (forall j :: 0 <= j < k && j < 64 ==> e[j] == d[j])
      && (forall j :: k <= j < o.k && j < 64 ==> e[j] == if j in o.newnz then 0 else o.d[j])
    ensures var o := RefineLoop(b, ts, k, d, newnz);
      RefineLoop(b, ts, k, e, newnz) == LoopDone(o.ts, o.k, o.run, e1, o.newnz) && Splice(o.d, e, e1, o.k)
    decreases |ts|
  {
    RoundFrame(b, ts, k, d, newnz);
    var o := LoopRound(b, ts, k, d, newnz);
    if o.Next? {
      LoopFrame(b, o.ts, o.k, o.d, o.newnz);
      LoopDonePast(b, o.ts, o.k, o.d, o.newnz);
      RoundAgain(b, ts, k, d, newnz, e);
      hide LoopRound;
      var e2 := if o.d[o.k - 1] == 0 then e else e[o.k - 1 := o.d[o.k - 1]];
      e1 := LoopAgain(b, o.ts, o.k, o.d, o.newnz, e2);
    } else {
      e1 := e;
      RoundEob(b, ts, k, d, newnz, e);
      hide LoopRound;
    }
  }

  lemma {:induction false} LoopDonePast(b: Band, ts: seq<Token>, k: nat, d: seq<int>, newnz: seq<nat>)
    requires BandOk(b) && |d| == 64 && InBlock(newnz)
    ensures k > b.se ==> RefineLoop(b, ts, k, d, newnz) == LoopDone(ts, k, 0, d, newnz)
  {
    if k > b.se {
      PastEnd(b, ts, k, d, newnz);
    }
  }

  lemma {:induction false} RoundEob(b: Band, ts: seq<Token>, k: nat, d: seq<int>, newnz: seq<nat>, e: seq<int>)
    requires BandOk(b) && |d| == |e| == 64 && InBlock(newnz)
    requires var o := LoopRound(b, ts, k, d, newnz); o.Halt? && o.o.LoopDone? && o.o.run > 0
    ensures LoopRound(b, ts, k, e, newnz) == Halt(LoopRound(b, ts, k, d, newnz).o.(d := e))
  {
    hide Correct, NewValue, Skip, Undo;
  }

  /** A loop that starved is resumed, from what it left, as if it had not been interrupted. */
  lemma {:induction false} LoopResumes(b: Band, ts: seq<Token>, more: seq<Token>, k: nat, d: seq<int>, newnz: seq<nat>, e: seq<int>)
    requires BandOk(b) && |d| == 64 && Below(newnz, k)
    requires var o := RefineLoop(b, ts, k, d, newnz); o.LoopStarved? && Splice(d, o.d, e, k)
    ensures RefineLoop(b, ts + more, k, e, newnz) == RefineLoop(b, ts + more, k, d, newnz)
    decreases |ts|
  {
    RoundFrame(b, ts, k, d, newnz);
    var o := LoopRound(b, ts, k, d, newnz);
    if o.Next? {
      LoopFrame(b, o.ts, o.k, o.d, o.newnz);
      LoopDonePast(b, o.ts, o.k, o.d, o.newnz);
      RoundAgain(b, ts, k, d, newnz, e);
      RoundLonger(b, ts, more, k, d, newnz);
      RoundLonger(b, ts, more, k, e, newnz);
      hide LoopRound;
      var e2 := if o.d[o.k - 1] == 0 then e else e[o.k - 1 := o.d[o.k - 1]];
      LoopResumes(b, o.ts, more, o.k, o.d, o.newnz, e2);
    } else {
      RoundResumes(b, ts, more, k, d, newnz, e);
      hide LoopRound;
    }
  }

  // ----- a block, refined or first scanned -----

  lemma {:induction false} RefineLonger(b: Band, ts: seq<Token>, more: seq<Token>, run: nat, d: seq<int>)
    requires BandOk(b) && |d| == 64
    ensures match DecodeRefine(b, ts, run, d)
      case BlockDone(ts1, run1, d1) => DecodeRefine(b, ts + more, run, d) == BlockDone(ts1 + more, run1, d1)
      case BlockGarbled => DecodeRefine(b, ts + more, run, d) == BlockGarbled
      case BlockStarved(_) => true
  {
    hide RefineLoop, RefineTail;
    if run > 0 {
      TailLonger(b, ts, more, b.ss, d);
    } else {
      LoopLonger(b, ts, more, b.ss, d, []);
      var o := RefineLoop(b, ts, b.ss, d, []);
      if o.LoopDone? {
        TailLonger(b, o.ts, more, o.k, o.d);
      }
    }
  }

  /** Undo logic is right: a refinement decode interrupted for lack of input and started
      again from the block it left behaves as if it had never been interrupted. */
  lemma {:induction false} RefineResumes(b: Band, ts: seq<Token>, more: seq<Token>, run: nat, d: seq<int>)
    requires BandOk(b) && |d| == 64 && DecodeRefine(b, ts, run, d).BlockStarved?
    ensures DecodeRefine(b, ts + more, run, DecodeRefine(b, ts, run, d).d) == DecodeRefine(b, ts + more, run, d)
  {
    var dS := DecodeRefine(b, ts, run, d).d;
    if run > 0 {
      TailFrame(b, ts, b.ss, d);
      assert dS == RefineTail(b, ts, b.ss, d).d;
      hide RefineLoop, RefineTail;
      TailResumes(b, ts, more, b.ss, d, dS);
    } else {
      var o := RefineLoop(b, ts, b.ss, d, []);
      LoopFrame(b, ts, b.ss, d, []);
      if o.LoopStarved? {
        hide RefineLoop, RefineTail;
        LoopResumes(b, ts, more, b.ss, d, [], dS);
      } else {
        TailFrame(b, o.ts, o.k, o.d);
        hide RefineLoop, RefineTail;
        var e1 := LoopAgain(b, ts, b.ss, d, [], dS);
        LoopLonger(b, ts, more, b.ss, d, []);
        LoopLonger(b, ts, more, b.ss, dS, []);
        TailResumes(b, o.ts, more, o.k, o.d, e1);
      }
    }
  }

  // ----- first scans: partial results are simply stored again -----

  lemma {:induction false} FirstLonger(b: Band, ts: seq<Token>, more: seq<Token>, k: nat, d: seq<int>)
    requires BandOk(b) && |d| == 64
    ensures match FirstLoop(b, ts, k, d)
      case FirstDone(ts1, run, d1) => FirstLoop(b, ts + more, k, d) == FirstDone(ts1 + more, run, d1)
      case FirstGarbled => FirstLoop(b, ts + more, k, d) == FirstGarbled
      case FirstStarved(_) => true
    decreases |ts|
  {
    hide HuffExtend, Pow2, ReadSym, ReadBits;
    ReadLonger(ts, more, 1, b.tbl);
    if k <= b.se && ReadSym(ts, b.tbl).GotSym? {
      var s, ts1 := ReadSym(ts, b.tbl).s, ReadSym(ts, b.tbl).rest;
      var r, n := s / 16, s % 16;
      ReadLonger(ts1, more, n, b.tbl);
      ReadLonger(ts1, more, r, b.tbl);
      if n != 0 && ReadBits(ts1, n).Got? {
        var v, ts2 := ReadBits(ts1, n).v, ReadBits(ts1, n).rest;
        FirstLonger(b, ts2, more, k + r + 1, d[Clamp(k + r) := HuffExtend(v, n) * Pow2(b.al)]);
      } else if n == 0 && r == 15 {
        FirstLonger(b, ts1, more, k + 16, d);
      }
    }
  }

  lemma {:induction false} FirstFrame(b: Band, ts: seq<Token>, k: nat, d: seq<int>)
    requires BandOk(b) && |d| == 64
    ensures var o := FirstLoop(b, ts, k, d); o.FirstStarved? ==> forall j :: 0 <= j < k && j < 64 ==> o.d[j] == d[j]
    decreases |ts|
  {
    hide HuffExtend, Pow2;
    if k <= b.se && ReadSym(ts, b.tbl).GotSym? {
      var s, ts1 := ReadSym(ts, b.tbl).s, ReadSym(ts, b.tbl).rest;
      var r, n := s / 16, s % 16;
      if n != 0 && ReadBits(ts1, n).Got? {
        var v, ts2 := ReadBits(ts1, n).v, ReadBits(ts1, n).rest;
        FirstFrame(b, ts2, k + r + 1, d[Clamp(k + r) := HuffExtend(v, n) * Pow2(b.al)]);
      } else if n == 0 && r == 15 {
        FirstFrame(b, ts1, k + 16, d);
      }
    }
  }

  lemma {:induction false} FirstResumes(b: Band, ts: seq<Token>, more: seq<Token>, k: nat, d: seq<int>, e: seq<int>)
    requires BandOk(b) && |d| == 64
    requires var o := FirstLoop(b, ts, k, d); o.FirstStarved? && Splice(d, o.d, e, k)
    ensures FirstLoop(b, ts + more, k, e) == FirstLoop(b, ts + more, k, d)
    decreases |ts|
  {
    hide HuffExtend, Pow2;
    ReadLonger(ts, more, 1, b.tbl);
    if ReadSym(ts, b.tbl).GotSym? {
      var s, ts1 := ReadSym(ts, b.tbl).s, ReadSym(ts, b.tbl).rest;
      var r, n := s / 16, s % 16;
      ReadLonger(ts1, more, n, b.tbl);
      ReadLonger(ts1, more, r, b.tbl);
      if n != 0 && ReadBits(ts1, n).Got? {
        var x, ts2 := HuffExtend(ReadBits(ts1, n).v, n) * Pow2(b.al), ReadBits(ts1, n).rest;
        var pos := Clamp(k + r);
        FirstFrame(b, ts2, k + r + 1, d[pos := x]);
        hide ReadSym, ReadBits;
        FirstResumes(b, ts2, more, k + r + 1, d[pos := x], e[pos := x]);
      } else if n == 0 && r == 15 {
        FirstFrame(b, ts1, k + 16, d);
        hide ReadSym, ReadBits;
        FirstResumes(b, ts1, more, k + 16, d, e);
      } else {
        assert e == d;
      }
    } else {
      assert e == d;
    }
  }

  // ----- any AC decode, any pattern of arrivals -----

  lemma {:induction false} BlockLonger(b: Band, ts: seq<Token>, more: seq<Token>, run: nat, d: seq<int>)
    requires BandOk(b) && |d| == 64
    ensures match DecodeBlock(b, ts, run, d)
      case BlockDone(ts1, run1, d1) => DecodeBlock(b, ts + more, run, d) == BlockDone(ts1 + more, run1, d1)
      case BlockGarbled => DecodeBlock(b, ts + more, run, d) == BlockGarbled
      case BlockStarved(_) => true
  {
    RefineLonger(b, ts, more, run, d);
    FirstLonger(b, ts, more, b.ss, d);
    hide DecodeRefine, FirstLoop;
  }

  lemma {:induction false} BlockResumes(b: Band, ts: seq<Token>, more: seq<Token>, run: nat, d: seq<int>)
    requires BandOk(b) && |d| == 64 && DecodeBlock(b, ts, run, d).BlockStarved?
    ensures DecodeBlock(b, ts + more, run, DecodeBlock(b, ts, run, d).d) == DecodeBlock(b, ts + more, run, d)
  {
    if b.ah != 0 {
      RefineResumes(b, ts, more, run, d);
      hide DecodeRefine, FirstLoop;
    } else {
      FirstFrame(b, ts, b.ss, d);
      FirstResumes(b, ts, more, b.ss, d, DecodeBlock(b, ts, run, d).d);
      hide DecodeRefine, FirstLoop;
    }
  }

  /** Decode with what has arrived; whenever that starves, wait for the next arrival and
      call again with the same permanent state and the block the failed call left. */
  function Attempts(b: Band, have: seq<Token>, arrivals: seq<seq<Token>>, run: nat, d: seq<int>): BlockOut
    requires BandOk(b) && |d| == 64
    decreases |arrivals|
  {
    match DecodeBlock(b, have, run, d)
    case BlockStarved(d1) =>
      if arrivals == [] then BlockStarved(d1) else Attempts(b, have + arrivals[0], arrivals[1..], run, d1)
    case BlockDone(ts1, run1, d1) => BlockDone(ts1 + Flat(arrivals), run1, d1)
    case BlockGarbled => BlockGarbled
  }

  /** Main result: decoding does not depend on how its input arrives. */
  lemma {:induction false} ArrivalIndependent(b: Band, have: seq<Token>, arrivals: seq<seq<Token>>, run: nat, d: seq<int>)
    requires BandOk(b) && |d| == 64
    ensures Attempts(b, have, arrivals, run, d) == DecodeBlock(b, have + Flat(arrivals), run, d)
    decreases |arrivals|
  {
    hide DecodeBlock;
    BlockLonger(b, have, Flat(arrivals), run, d);
    var o := DecodeBlock(b, have, run, d);
    if o.BlockStarved? {
      BlockResumes(b, have, Flat(arrivals), run, d);
      if arrivals == [] {
        assert have + [] == have;
      } else {
        Assoc3(have, arrivals[0], Flat(arrivals[1..]));
        ArrivalIndependent(b, have + arrivals[0], arrivals[1..], run, o.d);
      }
    }
  }
}
