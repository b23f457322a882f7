// What an AC scan can emit: no symbol outside the alphabet of section G.1.2 of ITU-T T.81, no
// bit string that does not fit, and at least one symbol if there is a block at all.
module AcEmissions {
  import opened Arith
  import opened Coefficients
  import opened Tokens
  import opened AcRefine
  import opened AcFirst
  import AC = AcScan

  /** A symbol of the scan's table whose low half is a bit count of at most 10 (or 0, for EOBn
      and ZRL), 1 to 14 bits, or one of eight markers. */
  predicate Regular(tbl: Table, t: Token) {
    match t
    case Sym(u, s) => u == tbl && s < 256 && s % 16 <= 10
    case Bits(v, n) => v < Pow2(n) && 1 <= n <= 14
    case Rst(num) => num < 8
  }

  ghost predicate AllRegular(tbl: Table, ts: seq<Token>) {
    forall i :: 0 <= i < |ts| ==> Regular(tbl, ts[i])
  }

  lemma {:induction false} RegularConcat(tbl: Table, a: seq<Token>, c: seq<Token>)
    requires AllRegular(tbl, a) && AllRegular(tbl, c)
    ensures AllRegular(tbl, a + c)
  {
  }

  lemma {:induction false} ValueRegular(tbl: Table, r: nat, p: int)
    requires r <= 15 && p != 0 && NBits(Abs(p)) <= MAX_COEF_BITS
    ensures AllRegular(tbl, ValueTokens(tbl, r, p))
  {
    MagnitudeRoundTrip(p);
    NBitsRange(Abs(p));
    hide MagnitudeBits, NBits, Pow2, HuffExtend, ValueTokens;
    var n := NBits(Abs(p));
    ValueParts(tbl, r, p, n);
    SymbolRegular(tbl, r * 16 + n, r, n);
  }

  lemma {:induction false} ValueParts(tbl: Table, r: nat, p: int, n: nat)
    requires n == NBits(Abs(p))
    ensures ValueTokens(tbl, r, p) == [Sym(tbl, r * 16 + n), Bits(MagnitudeBits(p, n), n)]
  {
    hide MagnitudeBits, NBits;
  }

  lemma {:induction false} SymbolRegular(tbl: Table, s: nat, r: nat, n: nat)
    requires s == r * 16 + n && r <= 15 && n <= 10
    ensures Regular(tbl, Sym(tbl, s))
  {
  }

  lemma {:induction false} FirstRegular(b: Band, z: seq<int>, k: nat, r: nat)
    requires BandOk(b) && |z| == 64 && InRange(b, z) && b.ss <= k <= b.se + 1
    ensures AllRegular(b.tbl, FirstCode(b, z, k, r).head) && StartsWithSymbol(FirstCode(b, z, k, r).head)
    decreases b.se + 1 - k
  {
    hide AcPoint, NBits, Pow2, MagnitudeBits, Regular;
    if k <= b.se {
      var p := AcPoint(z[k], b.al);
      if p == 0 {
        FirstRegular(b, z, k + 1, r + 1);
      } else {
        FirstRegular(b, z, k + 1, 0);
        ZrlsRegular(b.tbl, r / 16);
        ValueRegular(b.tbl, r % 16, p);
        RegularConcat(b.tbl, Zrls(b.tbl, r / 16), ValueTokens(b.tbl, r % 16, p));
        RegularConcat(b.tbl, Zrls(b.tbl, r / 16) + ValueTokens(b.tbl, r % 16, p), FirstCode(b, z, k + 1, 0).head);
      }
    }
  }

  lemma {:induction false} ZrlsRegular(tbl: Table, n: nat)
    ensures AllRegular(tbl, Zrls(tbl, n))
  {
  }

  lemma {:induction false} BitsRegular(tbl: Table, bs: seq<bool>)
    ensures AllRegular(tbl, BitTokens(bs))
  {
    assert Pow2(1) == 2;
  }

  predicate StartsWithSymbol(ts: seq<Token>) {
    ts != [] ==> ts[0].Sym?
  }

  lemma {:induction false} NewRegular(tbl: Table, r: nat, v: int, br: seq<bool>)
    requires r <= 15
    ensures AllRegular(tbl, [Sym(tbl, r * 16 + 1), Bits(if v < 0 then 0 else 1, 1)] + BitTokens(br))
  {
    assert Pow2(1) == 2;
    BitsRegular(tbl, br);
    hide BitTokens, Pow2;
  }

  lemma {:induction false} RefineRegular(b: Band, z: seq<int>, a: seq<nat>, eob: nat, k: nat, r: nat, br: seq<bool>)
    requires b.se < |a| == |z| && forall i :: k <= i <= b.se && a[i] == 1 ==> i <= eob
    ensures var ts := RefineCode(b, z, a, eob, k, r, br).head; AllRegular(b.tbl, ts) && StartsWithSymbol(ts)
    decreases b.se + 1 - k, r
  {
    hide Regular;
    if k > b.se {
    } else if a[k] == 0 {
      RefineRegular(b, z, a, eob, k + 1, r + 1, br);
    } else if r > 15 && k <= eob {
      RefineRegular(b, z, a, eob, k, r - 16, []);
      ZrlRegular(b.tbl, br);
      RegularConcat(b.tbl, [Sym(b.tbl, ZRL)] + BitTokens(br), RefineCode(b, z, a, eob, k, r - 16, []).head);
    } else if a[k] > 1 {
      RefineRegular(b, z, a, eob, k + 1, r, br + [a[k] % 2 == 1]);
    } else {
      RefineRegular(b, z, a, eob, k + 1, 0, []);
      NewRegular(b.tbl, r, z[k], br);
      RegularConcat(b.tbl, [Sym(b.tbl, r * 16 + 1), Bits(if z[k] < 0 then 0 else 1, 1)] + BitTokens(br), RefineCode(b, z, a, eob, k + 1, 0, []).head);
    }
  }

  lemma {:induction false} ZrlRegular(tbl: Table, br: seq<bool>)
    ensures AllRegular(tbl, [Sym(tbl, ZRL)] + BitTokens(br))
  {
    BitsRegular(tbl, br);
    hide BitTokens;
  }

  /** A block's code keeps the shape the run bookkeeping relies on, and is regular. */
  ghost predicate CodeRegular(tbl: Table, c: BlockCode) {
    BlockCodeOk(c) && AllRegular(tbl, c.head) && StartsWithSymbol(c.head)
  }

  lemma {:induction false} BlockRegular(b: Band, x: AC.Pair)
    requires AC.PairOk(b, x)
    ensures CodeRegular(b.tbl, AC.CodeOf(b, x.z))
  {
    AC.CodeOfOk(b, x);
    hide FirstCode, RefineCode, BlockCodeOk, AllRegular, StartsWithSymbol;
    if b.ah == 0 {
      FirstRegular(b, x.z, b.ss, 0);
    } else {
      var a := Magnitudes(x.z, b.al);
      RefineRegular(b, x.z, a, LastNew(a, b.ss, b.se + 1), b.ss, 0, []);
    }
  }

  lemma {:induction false} EobRegular(tbl: Table, run: nat, corr: seq<bool>)
    requires run <= MAX_EOBRUN
    ensures AllRegular(tbl, EobTokens(tbl, run, corr)) && (run > 0 ==> EobTokens(tbl, run, corr) != [])
    ensures StartsWithSymbol(EobTokens(tbl, run, corr))
  {
    hide NBits, BitTokens, Pow2, Regular;
    if run > 0 {
      EobValue(run);
      BitsRegular(tbl, corr);
      var n := NBits(run) - 1;
      SymbolRegular(tbl, n * 16, n, 0);
      if n > 0 {
        RunBitsRegular(tbl, run, n);
      }
    }
  }

  lemma {:induction false} RunBitsRegular(tbl: Table, run: nat, n: nat)
    requires 1 <= n <= 14
    ensures Regular(tbl, Bits(run % Pow2(n), n))
  {
    hide Pow2;
  }

  ghost predicate CodesRegular(tbl: Table, cs: seq<Event<BlockCode>>) {
    forall i :: 0 <= i < |cs| ==> EventRegular(tbl, cs[i])
  }

  ghost predicate EventRegular(tbl: Table, e: Event<BlockCode>) {
    if e.Item? then CodeRegular(tbl, e.x) else e.num < 8
  }

  lemma {:induction false} StepRegular(tbl: Table, st: RunState, c: BlockCode)
    requires RunOk(st) && CodeRegular(tbl, c)
    ensures AllRegular(tbl, StepTokens(tbl, st, c))
  {
    StepKeepsRunOk(st, c);
    EobRegular(tbl, st.run, st.corr);
    EobRegular(tbl, Joined(st, c).run, Joined(st, c).corr);
    hide EobTokens, Joined, ForcedOut, Regular;
  }

  /** Everything a scan emits is regular, whatever runs its blocks form. */
  lemma {:induction false} RunRegular(tbl: Table, st: RunState, cs: seq<Event<BlockCode>>)
    requires RunOk(st) && CodesRegular(tbl, cs)
    ensures AllRegular(tbl, RunTokens(tbl, st, cs))
    decreases |cs|
  {
    EobRegular(tbl, st.run, st.corr);
    hide EobTokens, StepTokens, StepState, CodeRegular, RunOk;
    if cs != [] {
      assert EventRegular(tbl, cs[0]);
      if cs[0].Restart? {
        NothingPending();
        RunRegular(tbl, RunState(0, []), cs[1..]);
      } else {
        StepRegular(tbl, st, cs[0].x);
        StepRunOk(tbl, st, cs[0].x);
        RunRegular(tbl, StepState(st, cs[0].x), cs[1..]);
      }
    }
  }

  lemma {:induction false} NothingPending()
    ensures RunOk(RunState(0, []))
  {
  }

  lemma {:induction false} StepRunOk(tbl: Table, st: RunState, c: BlockCode)
    requires RunOk(st) && CodeRegular(tbl, c)
    ensures RunOk(StepState(st, c))
  {
    StepKeepsRunOk(st, c);
    hide RunOk;
  }

  lemma {:induction false} RestartsRegular(tbl: Table, codes: seq<BlockCode>, interval: nat, togo: nat, num: nat)
    requires num < 8 && forall i :: 0 <= i < |codes| ==> CodeRegular(tbl, codes[i])
    ensures CodesRegular(tbl, WithRestarts(codes, interval, togo, num))
    decreases |codes|, togo == 0
  {
    hide CodeRegular;
    if codes != [] {
      if interval > 0 && togo == 0 {
        RestartsRegular(tbl, codes, interval, interval, (num + 1) % 8);
      } else {
        RestartsRegular(tbl, codes[1..], interval, if interval > 0 then togo - 1 else togo, num);
      }
    }
  }

  lemma {:induction false} AllCodesRegular(b: Band, xs: seq<AC.Pair>)
    requires AC.AllOk(b, xs)
    ensures var codes := AC.CodesOf(b, AC.Zs(xs)); forall i :: 0 <= i < |codes| ==> CodeRegular(b.tbl, codes[i])
  {
    var codes := AC.CodesOf(b, AC.Zs(xs));
    forall i | 0 <= i < |codes| ensures CodeRegular(b.tbl, codes[i]) {
      assert AC.PairOk(b, xs[i]);
      BlockRegular(b, xs[i]);
      hide CodeRegular, AC.CodeOf;
    }
  }

  lemma {:induction false} PassRegular(b: Band, xs: seq<AC.Pair>, interval: nat)
    requires AC.AllOk(b, xs)
    ensures AllRegular(b.tbl, AC.PassTokens(b, AC.Zs(xs), interval))
  {
    var codes := AC.CodesOf(b, AC.Zs(xs));
    AllCodesRegular(b, xs);
    RestartsRegular(b.tbl, codes, interval, interval, 0);
    NothingPending();
    RunRegular(b.tbl, RunState(0, []), WithRestarts(codes, interval, interval, 0));
    hide RunTokens, WithRestarts, CodeRegular;
  }

  // ----- a scan of at least one block emits at least one symbol -----

  ghost predicate HasSymbol(ts: seq<Token>) {
    exists i :: 0 <= i < |ts| && ts[i].Sym?
  }

  lemma {:induction false} SymbolConcat(a: seq<Token>, c: seq<Token>)
    requires HasSymbol(a) || HasSymbol(c)
    ensures HasSymbol(a + c)
  {
    if HasSymbol(a) {
      var i :| 0 <= i < |a| && a[i].Sym?;
      assert (a + c)[i].Sym?;
    } else {
      var i :| 0 <= i < |c| && c[i].Sym?;
      assert (a + c)[|a| + i].Sym?;
    }
  }

  lemma {:induction false} FrontSymbol(ts: seq<Token>)
    requires ts != [] && StartsWithSymbol(ts)
    ensures HasSymbol(ts)
  {
    assert ts[0].Sym?;
  }

  /** A block emits a symbol at once or leaves an EOB run that will. */
  lemma {:induction false} StepSymbol(tbl: Table, st: RunState, c: BlockCode)
    requires RunOk(st) && CodeRegular(tbl, c)
    ensures HasSymbol(StepTokens(tbl, st, c)) || StepState(st, c).run > 0
  {
    StepKeepsRunOk(st, c);
    EobRegular(tbl, Joined(st, c).run, Joined(st, c).corr);
    hide EobTokens, AllRegular, HasSymbol;
    var a, f := EobTokens(tbl, st.run, st.corr), EobTokens(tbl, Joined(st, c).run, Joined(st, c).corr);
    if c.head != [] {
      FrontSymbol(c.head);
      SymbolConcat(a, c.head);
      SymbolConcat(a + c.head, if ForcedOut(st, c) then f else []);
    } else if ForcedOut(st, c) {
      FrontSymbol(f);
      SymbolConcat([], f);
    }
  }

  lemma {:induction false} RunSymbol(tbl: Table, st: RunState, cs: seq<Event<BlockCode>>)
    requires RunOk(st) && CodesRegular(tbl, cs)
    requires st.run > 0 || exists i :: 0 <= i < |cs| && cs[i].Item?
    ensures HasSymbol(RunTokens(tbl, st, cs))
    decreases |cs|
  {
    EobRegular(tbl, st.run, st.corr);
    hide EobTokens, StepTokens, StepState, CodeRegular, RunOk, HasSymbol, AllRegular;
    var e := EobTokens(tbl, st.run, st.corr);
    if st.run > 0 {
      FrontSymbol(e);
    }
    if cs != [] {
      assert EventRegular(tbl, cs[0]);
      if cs[0].Restart? {
        NothingPending();
        var later := RunTokens(tbl, RunState(0, []), cs[1..]);
        if st.run == 0 {
          var i :| 0 <= i < |cs| && cs[i].Item?;
          assert cs[1..][i - 1].Item?;
          RunSymbol(tbl, RunState(0, []), cs[1..]);
        } else {
          SymbolConcat(e, [Rst(cs[0].num)]);
        }
        SymbolConcat(e + [Rst(cs[0].num)], later);
      } else {
        StepSymbol(tbl, st, cs[0].x);
        StepRunOk(tbl, st, cs[0].x);
        if StepState(st, cs[0].x).run > 0 {
          RunSymbol(tbl, StepState(st, cs[0].x), cs[1..]);
        }
        SymbolConcat(StepTokens(tbl, st, cs[0].x), RunTokens(tbl, StepState(st, cs[0].x), cs[1..]));
      }
    }
  }

  lemma {:induction false} PassSymbol(b: Band, xs: seq<AC.Pair>, interval: nat)
    requires AC.AllOk(b, xs) && xs != []
    ensures HasSymbol(AC.PassTokens(b, AC.Zs(xs), interval))
  {
    var codes := AC.CodesOf(b, AC.Zs(xs));
    AllCodesRegular(b, xs);
    RestartsRegular(b.tbl, codes, interval, interval, 0);
    NothingPending();
    SomeItem(codes, interval, 0);
    RunSymbol(b.tbl, RunState(0, []), WithRestarts(codes, interval, interval, 0));
    hide RunTokens, WithRestarts, CodeRegular;
  }

  lemma {:induction false} SomeItem(codes: seq<BlockCode>, interval: nat, num: nat)
    requires codes != []
    ensures exists i :: 0 <= i < |WithRestarts(codes, interval, interval, num)| && WithRestarts(codes, interval, interval, num)[i].Item?
  {
    assert WithRestarts(codes, interval, interval, num)[0].Item?;
  }
}
