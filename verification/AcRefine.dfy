// AC successive-approximation refinement (section G.1.2.3 of ITU-T T.81): what the
// encoder emits for a block, what the decoder does with it, and why the decoder gains
// exactly one bit of precision.
module AcRefine {
  import opened Arith
  import opened Coefficients
  import opened Tokens

  /** The parameters of an AC scan: spectral band, bit positions and Huffman table. */
  datatype Band = Band(ss: nat, se: nat, ah: nat, al: nat, tbl: Table)

  predicate BandOk(b: Band) {
    1 <= b.ss <= b.se <= 63
  }

  // ----- the encoder's view of a block -----

  /** absvalues[]: magnitudes after the point transform. */
  function Magnitudes(z: seq<int>, al: nat): (a: seq<nat>)
    ensures |a| == |z|
    ensures forall k :: 0 <= k < |z| ==> a[k] == Magnitude(z[k], al)
  {
    seq(|z|, k requires 0 <= k < |z| => Magnitude(z[k], al))
  }

  /** EOB: index of the last coefficient of [ss, k) that becomes nonzero now, or 0. */
  function LastNew(a: seq<nat>, ss: nat, k: nat): (e: nat)
    requires k <= |a|
    ensures forall i :: ss <= i < k && a[i] == 1 ==> i <= e
  {
    if k <= ss then 0 else if a[k - 1] == 1 then k - 1 else LastNew(a, ss, k - 1)
  }

  function Before(ts: seq<Token>, c: BlockCode): BlockCode {
    c.(head := ts + c.head)
  }

  const ZRL: nat := 0xF0

  /** The main pass from position k, with r zeros and the bits br pending. */
  function RefineCode(b: Band, z: seq<int>, a: seq<nat>, eob: nat, k: nat, r: nat, br: seq<bool>): BlockCode
    requires b.se < |a| == |z|
    decreases b.se + 1 - k, r
  {
    if k > b.se then BlockCode([], r > 0 || br != [], br)
    else if a[k] == 0 then RefineCode(b, z, a, eob, k + 1, r + 1, br)
    else if r > 15 && k <= eob then
      Before([Sym(b.tbl, ZRL)] + BitTokens(br), RefineCode(b, z, a, eob, k, r - 16, []))
    else if a[k] > 1 then RefineCode(b, z, a, eob, k + 1, r, br + [a[k] % 2 == 1])
    else
      Before([Sym(b.tbl, r * 16 + 1), Bits(if z[k] < 0 then 0 else 1, 1)] + BitTokens(br),
             RefineCode(b, z, a, eob, k + 1, 0, []))
  }

  /** Everything the encoder does with one block. */
  function BlockRefinement(b: Band, z: seq<int>): BlockCode
    requires BandOk(b) && |z| == 64
  {
    var a := Magnitudes(z, b.al);
    RefineCode(b, z, a, LastNew(a, b.ss, b.se + 1), b.ss, 0, [])
  }

  // ----- the decoder -----

  /** p1 or m1: the value of a newly nonzero coefficient with this sign bit. */
  function NewValue(v: nat, al: nat): int {
    var p1: int := Pow2(al);
    if v != 0 then p1 else -p1
  }

  /** Applying a correction bit to an already-nonzero coefficient. */
  function Correct(v: int, bit: nat, al: nat): int {
    if bit != 0 && (v / Pow2(al)) % 2 == 0 then
      if v >= 0 then v + Pow2(al) else v - Pow2(al)
    else v
  }

  /** Re-zeroing the coefficients this call made nonzero (label `undoit`). */
  function Undo(d: seq<int>, newnz: seq<nat>): (u: seq<int>)
    requires forall i :: 0 <= i < |newnz| ==> newnz[i] < |d|
    ensures |u| == |d|
    ensures forall k :: 0 <= k < |d| ==> u[k] == if k in newnz then 0 else d[k]
    decreases |newnz|
  {
    if newnz == [] then d
    else
      var n := |newnz| - 1;
      assert newnz == newnz[..n] + [newnz[n]];
      Undo(d[newnz[n] := 0], newnz[..n])
  }

  datatype SkipOut = SkipTo(ts: seq<Token>, k: nat, d: seq<int>) | SkipStarved(d: seq<int>) | SkipGarbled

  /** Advance over already-nonzero coefficients and r still-zero ones, appending correction
      bits to the nonzeroes. */
  function Skip(b: Band, ts: seq<Token>, k: nat, r: nat, d: seq<int>): (o: SkipOut)
    requires b.se < |d|
    ensures o.SkipTo? ==> k <= o.k && (k <= b.se + 1 ==> o.k <= b.se + 1) && |o.d| == |d| && |o.ts| <= |ts|
    ensures o.SkipStarved? ==> |o.d| == |d|
    decreases b.se + 1 - k
  {
    if k > b.se then SkipTo(ts, k, d)
    else if d[k] != 0 then
      match ReadBits(ts, 1)
      case NoData => SkipStarved(d)
      case WrongKind => SkipGarbled
      case Got(v, rest) => Skip(b, rest, k + 1, r, d[k := Correct(d[k], v, b.al)])
    else if r == 0 then SkipTo(ts, k, d)
    else Skip(b, ts, k + 1, r - 1, d)
  }

  /** Where the first loop leaves the block: at position k with `run` EOBs to go and the
      positions newnz newly nonzero. */
  datatype LoopOut =
    | LoopDone(ts: seq<Token>, k: nat, run: nat, d: seq<int>, newnz: seq<nat>)
    | LoopStarved(d: seq<int>)
    | LoopGarbled

  predicate InBlock(newnz: seq<nat>) {
    forall i :: 0 <= i < |newnz| ==> newnz[i] < 64
  }

  /** One round of the loop: either it ends, or it goes on at a later position. */
  datatype Round = Halt(o: LoopOut) | Next(ts: seq<Token>, k: nat, d: seq<int>, newnz: seq<nat>)

  function LoopRound(b: Band, ts: seq<Token>, k: nat, d: seq<int>, newnz: seq<nat>): (o: Round)
    requires BandOk(b) && |d| == 64 && InBlock(newnz)
    ensures o.Next? ==> |o.d| == 64 && InBlock(o.newnz) && |o.ts| < |ts|
    ensures o.Halt? && o.o.LoopDone? ==> |o.o.d| == 64 && InBlock(o.o.newnz)
    ensures o.Halt? && o.o.LoopStarved? ==> |o.o.d| == 64
  {
    if k > b.se then Halt(LoopDone(ts, k, 0, d, newnz))
    else match ReadSym(ts, b.tbl)
      case NoSym => Halt(LoopStarved(Undo(d, newnz)))
      case WrongSym => Halt(LoopGarbled)
      case GotSym(s, ts1) =>
        var r := s / 16;
        if s % 16 != 0 then
          match ReadBits(ts1, 1)
          case NoData => Halt(LoopStarved(Undo(d, newnz)))
          case WrongKind => Halt(LoopGarbled)
          case Got(v, ts2) => AfterSkip(b, Skip(b, ts2, k, r, d), newnz, NewValue(v, b.al))
        else if r == 15 then AfterSkip(b, Skip(b, ts1, k, r, d), newnz, 0)
        else if r == 0 then Halt(LoopDone(ts1, k, 1, d, newnz))
        else match ReadBits(ts1, r)
          case NoData => Halt(LoopStarved(Undo(d, newnz)))
          case WrongKind => Halt(LoopGarbled)
          case Got(v, ts2) => Halt(LoopDone(ts2, k, Pow2(r) + v, d, newnz))
  }

  /** Storing the newly nonzero value s, if there is one, where the skip ended. */
  function AfterSkip(b: Band, o: SkipOut, newnz: seq<nat>, s: int): Round
    requires o.SkipTo? || o.SkipStarved? ==> |o.d| == 64
    requires InBlock(newnz)
  {
    match o
    case SkipStarved(d) => Halt(LoopStarved(Undo(d, newnz)))
    case SkipGarbled => Halt(LoopGarbled)
    case SkipTo(ts, k, d) =>
      if s != 0 then Next(ts, k + 1, d[Clamp(k) := s], newnz + [Clamp(k)]) else Next(ts, k + 1, d, newnz)
  }

  /** The loop taken when no EOB run is pending; newnz lists newly nonzero positions. */
  function RefineLoop(b: Band, ts: seq<Token>, k: nat, d: seq<int>, newnz: seq<nat>): (o: LoopOut)
    requires BandOk(b) && |d| == 64 && InBlock(newnz)
    ensures o.LoopDone? ==> |o.d| == 64 && InBlock(o.newnz)
    ensures o.LoopStarved? ==> |o.d| == 64
    decreases |ts|
  {
    match LoopRound(b, ts, k, d, newnz)
    case Halt(o) => o
    case Next(ts1, k1, d1, newnz1) => RefineLoop(b, ts1, k1, d1, newnz1)
  }

  /** Remaining positions of a block that ends in an EOB: correction bits only. */
  function RefineTail(b: Band, ts: seq<Token>, k: nat, d: seq<int>): (o: SkipOut)
    requires b.se < |d|
    ensures o.SkipTo? ==> |o.d| == |d|
    ensures o.SkipStarved? ==> |o.d| == |d|
    decreases b.se + 1 - k
  {
    if k > b.se then SkipTo(ts, k, d)
    else if d[k] != 0 then
      match ReadBits(ts, 1)
      case NoData => SkipStarved(d)
      case WrongKind => SkipGarbled
      case Got(v, rest) => RefineTail(b, rest, k + 1, d[k := Correct(d[k], v, b.al)])
    else RefineTail(b, ts, k + 1, d)
  }

  /** decode_mcu_AC_refine on one block, from `run` EOBs pending: the tokens left, the new
      run and block; or the block as a suspended call leaves it. */
  datatype BlockOut =
    | BlockDone(ts: seq<Token>, run: nat, d: seq<int>)
    | BlockStarved(d: seq<int>)
    | BlockGarbled

  function DecodeRefine(b: Band, ts: seq<Token>, run: nat, d: seq<int>): (o: BlockOut)
    requires BandOk(b) && |d| == 64
    ensures o.BlockDone? ==> |o.d| == 64
    ensures o.BlockStarved? ==> |o.d| == 64
  {
    if run > 0 then FinishRun(RefineTail(b, ts, b.ss, d), run, [])
    else match RefineLoop(b, ts, b.ss, d, [])
      case LoopStarved(d1) => BlockStarved(d1)
      case LoopGarbled => BlockGarbled
      case LoopDone(ts1, k, run1, d1, newnz) =>
        if run1 == 0 then BlockDone(ts1, 0, d1)
        else FinishRun(RefineTail(b, ts1, k, d1), run1, newnz)
  }

  function FinishRun(o: SkipOut, run: nat, newnz: seq<nat>): BlockOut
    requires run > 0
    requires o.SkipStarved? ==> |o.d| == 64 && InBlock(newnz)
  {
    match o
    case SkipTo(ts, _, d) => BlockDone(ts, run - 1, d)
    case SkipStarved(d) => BlockStarved(Undo(d, newnz))
    case SkipGarbled => BlockGarbled
  }

  // ----- one more bit of precision -----

  /** Twice h units of 2p, either sign, has an even quotient by p. */
  lemma {:induction false} EvenQuotient(h: int, p: nat)
    requires p > 0
    ensures h * (2 * p) == (2 * h) * p
    ensures ((h * (2 * p)) / p) % 2 == 0
  {
    assert h * (2 * p) == (2 * h) * p;
    DivUnique(h * (2 * p), p, 2 * h, 0);
  }

  lemma {:induction false} SameSign(h: int, p: nat)
    requires h > 0 && p > 0
    ensures h * (2 * p) > 0 && (-h) * (2 * p) < 0
  {
  }

  lemma {:induction false} OddStep(h: int, p: nat)
    ensures h * (2 * p) + p == (2 * h + 1) * p
    ensures h * (2 * p) - p == (2 * h - 1) * p
  {
  }

  /** Magnitudes at al decide what the decoder already sees at al + 1, and what a
      correction bit or a new value makes of it. */
  lemma {:induction false} OneMoreBit(v: int, al: nat)
    ensures AcShown(v, al + 1) == 0 <==> Magnitude(v, al) <= 1
    ensures Magnitude(v, al) > 1 ==>
      Correct(AcShown(v, al + 1), if Magnitude(v, al) % 2 == 1 then 1 else 0, al) == AcShown(v, al)
    ensures Magnitude(v, al) == 1 ==> AcShown(v, al) == NewValue(if v < 0 then 0 else 1, al)
    ensures Magnitude(v, al) == 0 ==> AcShown(v, al) == 0
  {
    var p, m: nat := Pow2(al), Magnitude(v, al);
    HalveQuotient(Abs(v), al);
    assert Magnitude(v, al + 1) == m / 2 && Pow2(al + 1) == 2 * p;
    hide Pow2, Magnitude;
    var half: int := m / 2;
    var h := if v < 0 then -half else half;
    assert AcPoint(v, al + 1) == h;
    assert AcShown(v, al + 1) == h * (2 * p);
    EvenQuotient(h, p);
    OddStep(h, p);
    if half > 0 {
      SameSign(half, p);
    }
  }

  // ----- the decoder undoes the encoder on one block -----

  function Zeros(a: seq<nat>, i: nat, j: nat): nat
    requires j <= |a|
    decreases j - i
  {
    if i >= j then 0 else (if a[i] == 0 then 1 else 0) + Zeros(a, i + 1, j)
  }

  /** The correction bits of the already-nonzero coefficients of [i, j). */
  function CorrBits(a: seq<nat>, i: nat, j: nat): (bs: seq<bool>)
    requires j <= |a|
    ensures |bs| <= if i >= j then 0 else j - i
    decreases j - i
  {
    if i >= j then []
    else (if a[i] > 1 then [a[i] % 2 == 1] else []) + CorrBits(a, i + 1, j)
  }

  lemma {:induction false} ExtendRight(a: seq<nat>, i: nat, j: nat)
    requires i <= j < |a|
    ensures Zeros(a, i, j + 1) == Zeros(a, i, j) + if a[j] == 0 then 1 else 0
    ensures CorrBits(a, i, j + 1) == CorrBits(a, i, j) + if a[j] > 1 then [a[j] % 2 == 1] else []
    decreases j - i
  {
    if i < j {
      ExtendRight(a, i + 1, j);
    }
  }

  ghost predicate NoNew(a: seq<nat>, i: nat, j: nat)
    requires j <= |a|
  {
    forall x :: i <= x < j ==> a[x] != 1
  }

  /** The block half way: positions below m show bit al, later ones only bit al + 1. */
  function Partly(b: Band, z: seq<int>, d: seq<int>, m: nat): (p: seq<int>)
    requires |d| == |z| == 64
    ensures |p| == 64
  {
    seq(64, k requires 0 <= k < 64 => if b.ss <= k < m then AcShown(z[k], b.al) else d[k])
  }

  /** d shows block z to bit al + 1 inside the band. */
  ghost predicate ShowsBand(b: Band, z: seq<int>, d: seq<int>, al: nat)
    requires |d| == |z| == 64 && BandOk(b)
  {
    forall k :: b.ss <= k <= b.se ==> d[k] == AcShown(z[k], al)
  }

  lemma {:induction false} PartlyStep(b: Band, z: seq<int>, d: seq<int>, m: nat)
    requires BandOk(b) && |d| == |z| == 64 && b.ss <= m <= b.se && ShowsBand(b, z, d, b.al + 1)
    ensures Partly(b, z, d, m + 1) == Partly(b, z, d, m)[m := AcShown(z[m], b.al)]
    ensures Magnitude(z[m], b.al) == 0 ==> Partly(b, z, d, m + 1) == Partly(b, z, d, m)
    ensures Partly(b, z, d, m)[m] == 0 <==> Magnitude(z[m], b.al) <= 1
    ensures Magnitude(z[m], b.al) == 1 ==>
      Partly(b, z, d, m + 1) == Partly(b, z, d, m)[m := NewValue(if z[m] < 0 then 0 else 1, b.al)]
    ensures Magnitude(z[m], b.al) > 1 ==>
      Partly(b, z, d, m + 1) == Partly(b, z, d, m)[m := Correct(Partly(b, z, d, m)[m], if Magnitude(z[m], b.al) % 2 == 1 then 1 else 0, b.al)]
  {
    OneMoreBit(z[m], b.al);
    hide Correct, NewValue, AcShown, Magnitude;
    assert Partly(b, z, d, m)[m] == AcShown(z[m], b.al + 1);
  }

  /** Everything fixed while one block is decoded. */
  ghost predicate Decoding(b: Band, z: seq<int>, a: seq<nat>, d: seq<int>) {
    BandOk(b) && |d| == |z| == 64 && a == Magnitudes(z, b.al) && ShowsBand(b, z, d, b.al + 1)
  }

  lemma {:induction false} SkipBit(b: Band, bit: bool, ts: seq<Token>, k: nat, r: nat, d: seq<int>)
    requires k <= b.se < |d| && d[k] != 0
    ensures Skip(b, [BitToken(bit)] + ts, k, r, d)
         == Skip(b, ts, k + 1, r, d[k := Correct(d[k], if bit then 1 else 0, b.al)])
  {
    assert ([BitToken(bit)] + ts)[1..] == ts;
    hide Correct;
  }

  /** One position of a stretch: a correction bit, or a zero to be counted. */
  lemma {:induction false} StretchStep(b: Band, z: seq<int>, a: seq<nat>, d: seq<int>, k: nat, p: nat, r: nat, rest: seq<Token>)
    requires Decoding(b, z, a, d) && b.ss <= k < p <= b.se + 1 && a[k] != 1 && (a[k] == 0 ==> r > 0)
    ensures Skip(b, BitTokens(CorrBits(a, k, p)) + rest, k, r, Partly(b, z, d, k))
         == Skip(b, BitTokens(CorrBits(a, k + 1, p)) + rest, k + 1, if a[k] == 0 then r - 1 else r, Partly(b, z, d, k + 1))
  {
    StretchFacts(a, k, p);
    PartlyStep(b, z, d, k);
    assert a[k] == Magnitude(z[k], b.al);
    if a[k] > 1 {
      BitTokensFront(a[k] % 2 == 1, CorrBits(a, k + 1, p), rest);
      SkipBit(b, a[k] % 2 == 1, BitTokens(CorrBits(a, k + 1, p)) + rest, k, r, Partly(b, z, d, k));
      hide *;
    } else {
      SkipZero(b, BitTokens(CorrBits(a, k, p)) + rest, k, r, Partly(b, z, d, k));
      hide *;
    }
  }

  /** Skipping consumes exactly the correction bits of the stretch it passes. */
  lemma {:induction false} SkipStretch(b: Band, z: seq<int>, a: seq<nat>, d: seq<int>, k: nat, p: nat, r: nat, rest: seq<Token>)
    requires Decoding(b, z, a, d) && b.ss <= k <= p <= b.se + 1
    requires NoNew(a, k, p) && Zeros(a, k, p) <= r
    ensures Skip(b, BitTokens(CorrBits(a, k, p)) + rest, k, r, Partly(b, z, d, k))
         == Skip(b, rest, p, r - Zeros(a, k, p), Partly(b, z, d, p))
    decreases p - k
  {
    hide Skip, Partly, Zeros, CorrBits, ShowsBand, Magnitudes;
    StretchFacts(a, k, p);
    if k == p {
      assert BitTokens([]) + rest == rest;
    } else {
      SkipStretch(b, z, a, d, k + 1, p, if a[k] == 0 then r - 1 else r, rest);
      StretchStep(b, z, a, d, k, p, r, rest);
    }
  }

  lemma {:induction false} StretchFacts(a: seq<nat>, k: nat, p: nat)
    requires k <= p <= |a|
    ensures k == p ==> CorrBits(a, k, p) == [] && Zeros(a, k, p) == 0
    ensures k < p && a[k] > 1 ==>
      CorrBits(a, k, p) == [a[k] % 2 == 1] + CorrBits(a, k + 1, p) && Zeros(a, k, p) == Zeros(a, k + 1, p)
    ensures k < p && a[k] <= 1 ==>
      CorrBits(a, k, p) == CorrBits(a, k + 1, p) && Zeros(a, k, p) == (if a[k] == 0 then 1 else 0) + Zeros(a, k + 1, p)
  {
  }

  lemma {:induction false} SkipZero(b: Band, ts: seq<Token>, k: nat, r: nat, d: seq<int>)
    requires k <= b.se < |d| && d[k] == 0 && r > 0
    ensures Skip(b, ts, k, r, d) == Skip(b, ts, k + 1, r - 1, d)
  {
  }

  /** Skipping r zeros stops at the next zero. */
  lemma {:induction false} SkipZeros(b: Band, z: seq<int>, a: seq<nat>, d: seq<int>, k: nat, r: nat, ts: seq<Token>)
    requires Decoding(b, z, a, d) && b.ss <= k && k + r <= b.se
    requires (forall i :: k <= i < k + r ==> a[i] == 0) && a[k + r] <= 1
    ensures Skip(b, ts, k, r, Partly(b, z, d, k)) == SkipTo(ts, k + r, Partly(b, z, d, k + r))
    decreases r
  {
    PartlyStep(b, z, d, k);
    hide Correct, NewValue, AcShown, Magnitude, Partly;
    if r > 0 {
      SkipZeros(b, z, a, d, k + 1, r - 1, ts);
    }
  }

  /** One round of the loop on a newly-nonzero code, whatever the block. */
  lemma {:induction false} LoopNewStep(b: Band, r: nat, sign: nat, ts: seq<Token>, k: nat, d: seq<int>, newnz: seq<nat>)
    requires BandOk(b) && |d| == 64 && InBlock(newnz) && k <= b.se && r <= 15
    requires var o := Skip(b, ts, k, r, d); o.SkipTo? && o.k < 64
    ensures var o := Skip(b, ts, k, r, d);
      RefineLoop(b, [Sym(b.tbl, r * 16 + 1), Bits(sign, 1)] + ts, k, d, newnz)
      == RefineLoop(b, o.ts, o.k + 1, o.d[o.k := NewValue(sign, b.al)], newnz + [o.k])
  {
    var all := [Sym(b.tbl, r * 16 + 1), Bits(sign, 1)] + ts;
    assert all[1..][1..] == ts;
    hide Skip, NewValue;
    assert (r * 16 + 1) / 16 == r && (r * 16 + 1) % 16 == 1;
  }

  /** One round of the loop on a ZRL code. */
  lemma {:induction false} LoopZrlStep(b: Band, ts: seq<Token>, k: nat, d: seq<int>, newnz: seq<nat>)
    requires BandOk(b) && |d| == 64 && InBlock(newnz) && k <= b.se
    requires Skip(b, ts, k, 15, d).SkipTo?
    ensures var o := Skip(b, ts, k, 15, d);
      RefineLoop(b, [Sym(b.tbl, ZRL)] + ts, k, d, newnz) == RefineLoop(b, o.ts, o.k + 1, o.d, newnz)
  {
    assert ([Sym(b.tbl, ZRL)] + ts)[1..] == ts;
    hide Skip;
  }

  /** Skipping 15 zeros from k0 on, when the first of them lie in a stretch up to p. */
  lemma {:induction false} ZrlSkip(b: Band, z: seq<int>, a: seq<nat>, d: seq<int>, k0: nat, p: nat, q: nat, rest: seq<Token>)
    requires Decoding(b, z, a, d) && b.ss <= k0 <= p <= p + q <= b.se
    requires NoNew(a, k0, p) && Zeros(a, k0, p) + q == 15
    requires forall i :: p <= i <= p + q ==> a[i] == 0
    ensures Skip(b, BitTokens(CorrBits(a, k0, p)) + rest, k0, 15, Partly(b, z, d, k0)) == SkipTo(rest, p + q, Partly(b, z, d, p + q + 1))
  {
    hide Skip, Zeros, CorrBits, BitTokens, Partly, AcShown, Correct, NewValue;
    SkipStretch(b, z, a, d, k0, p, 15, rest);
    SkipZeros(b, z, a, d, p, q, rest);
    PartlyStep(b, z, d, p + q);
  }

  /** A ZRL code takes the decoder over exactly 16 zeros and the nonzeroes among them. */
  lemma {:induction false} ZrlDecodes(b: Band, z: seq<int>, a: seq<nat>, d: seq<int>, k0: nat, p: nat, k: nat, rest: seq<Token>, newnz: seq<nat>)
    returns (k1: nat)
    requires Decoding(b, z, a, d) && InBlock(newnz) && b.ss <= k0 <= p <= k <= b.se
    requires NoNew(a, k0, k) && Zeros(a, k0, p) <= 15 < Zeros(a, k0, p) + (k - p)
    requires forall i :: p <= i < k ==> a[i] == 0
    ensures k1 == p + 16 - Zeros(a, k0, p)
    ensures RefineLoop(b, [Sym(b.tbl, ZRL)] + BitTokens(CorrBits(a, k0, p)) + rest, k0, Partly(b, z, d, k0), newnz)
         == RefineLoop(b, rest, k1, Partly(b, z, d, k1), newnz)
  {
    hide Skip, Zeros, CorrBits, BitTokens, Partly, RefineLoop, ShowsBand, Magnitudes;
    var q := 15 - Zeros(a, k0, p);
    k1 := p + q + 1;
    var bits := BitTokens(CorrBits(a, k0, p));
    ZrlSkip(b, z, a, d, k0, p, q, rest);
    LoopZrlStep(b, bits + rest, k0, Partly(b, z, d, k0), newnz);
    Assoc3([Sym(b.tbl, ZRL)], bits, rest);
  }

  /** A newly-nonzero code takes the decoder to exactly that coefficient. */
  lemma {:induction false} NewDecodes(b: Band, z: seq<int>, a: seq<nat>, d: seq<int>, k0: nat, k: nat, rest: seq<Token>, newnz: seq<nat>)
    requires Decoding(b, z, a, d) && InBlock(newnz) && b.ss <= k0 <= k <= b.se
    requires NoNew(a, k0, k) && a[k] == 1 && Zeros(a, k0, k) <= 15
    ensures
      RefineLoop(b, NewTokens(b, z, a, k0, k) + BitTokens(CorrBits(a, k0, k)) + rest, k0, Partly(b, z, d, k0), newnz)
      == RefineLoop(b, rest, k + 1, Partly(b, z, d, k + 1), newnz + [k])
  {
    var r, sign := Zeros(a, k0, k), if z[k] < 0 then 0 else 1;
    var bits := BitTokens(CorrBits(a, k0, k));
    SkipStretch(b, z, a, d, k0, k, r, rest);
    SkipZeros(b, z, a, d, k, 0, rest);
    PartlyStep(b, z, d, k);
    assert Partly(b, z, d, k + 1) == Partly(b, z, d, k)[k := NewValue(sign, b.al)];
    assert NewTokens(b, z, a, k0, k) == [Sym(b.tbl, r * 16 + 1), Bits(sign, 1)];
    hide *;
    LoopNewStep(b, r, sign, bits + rest, k0, Partly(b, z, d, k0), newnz);
    Assoc3(NewTokens(b, z, a, k0, k), bits, rest);
  }

  function NewTokens(b: Band, z: seq<int>, a: seq<nat>, k0: nat, k: nat): seq<Token>
    requires k < |a| == |z|
  {
    [Sym(b.tbl, Zeros(a, k0, k) * 16 + 1), Bits(if z[k] < 0 then 0 else 1, 1)]
  }

  /** The encoder's window [k0, k) when it reaches position k: r zeros, no newly nonzero
      coefficient, and while k <= EOB at most 15 zeros up to p, then only zeros. */
  ghost predicate Window(b: Band, a: seq<nat>, k0: nat, p: nat, k: nat, r: nat)
    requires b.se < |a|
  {
    && b.ss <= k0 <= k <= b.se + 1 && NoNew(a, k0, k) && r == Zeros(a, k0, k)
    && (k <= LastNew(a, b.ss, b.se + 1) ==>
        && k0 <= p <= k && Zeros(a, k0, p) <= 15 && (forall i :: p <= i < k ==> a[i] == 0)
        && r == Zeros(a, k0, p) + (k - p) && CorrBits(a, k0, k) == CorrBits(a, k0, p))
  }

  lemma {:induction false} WindowStart(b: Band, a: seq<nat>, k: nat, m: nat)
    requires b.se < |a| && b.ss <= k <= m <= b.se + 1 && forall i :: k <= i < m ==> a[i] == 0
    ensures Window(b, a, k, k, m, m - k) && CorrBits(a, k, m) == []
  {
    AllZeros(a, k, m);
    AllZeros(a, k, k);
  }

  lemma {:induction false} WindowZero(b: Band, a: seq<nat>, k0: nat, p: nat, k: nat, r: nat)
    requires b.se < |a| && Window(b, a, k0, p, k, r) && k <= b.se && a[k] == 0
    ensures Window(b, a, k0, p, k + 1, r + 1) && CorrBits(a, k0, k + 1) == CorrBits(a, k0, k)
  {
    ExtendRight(a, k0, k);
    hide Zeros, CorrBits;
  }

  lemma {:induction false} WindowOld(b: Band, a: seq<nat>, k0: nat, p: nat, k: nat, r: nat)
    requires b.se < |a| && Window(b, a, k0, p, k, r) && k <= b.se && a[k] > 1
    requires r <= 15 || k > LastNew(a, b.ss, b.se + 1)
    ensures Window(b, a, k0, k + 1, k + 1, r)
    ensures CorrBits(a, k0, k + 1) == CorrBits(a, k0, k) + [a[k] % 2 == 1]
  {
    ExtendRight(a, k0, k);
    hide Zeros, CorrBits;
  }

  /** What HeadDecodes promises of the code c of the rest of a block. */
  ghost predicate Reaches(b: Band, z: seq<int>, a: seq<nat>, d: seq<int>, c: BlockCode, rest: seq<Token>,
                          k0: nat, newnz: seq<nat>, k1: nat, newnz1: seq<nat>)
    requires Decoding(b, z, a, d)
  {
    && InBlock(newnz) && InBlock(newnz1) && b.ss <= k0 <= k1 <= b.se + 1
    && (c.eob <==> k1 <= b.se) && NoNew(a, k1, b.se + 1) && c.tail == CorrBits(a, k1, b.se + 1)
    && RefineLoop(b, c.head + rest, k0, Partly(b, z, d, k0), newnz)
       == RefineLoop(b, rest, k1, Partly(b, z, d, k1), newnz1)
  }

  lemma {:induction false} ReachesBefore(b: Band, z: seq<int>, a: seq<nat>, d: seq<int>, pre: seq<Token>, c: BlockCode, rest: seq<Token>,
                      k0: nat, newnz: seq<nat>, km: nat, newnzm: seq<nat>, k1: nat, newnz1: seq<nat>)
    requires Decoding(b, z, a, d) && Reaches(b, z, a, d, c, rest, km, newnzm, k1, newnz1)
    requires InBlock(newnz) && b.ss <= k0 <= km
    requires RefineLoop(b, pre + (c.head + rest), k0, Partly(b, z, d, k0), newnz)
          == RefineLoop(b, c.head + rest, km, Partly(b, z, d, km), newnzm)
    ensures Reaches(b, z, a, d, Before(pre, c), rest, k0, newnz, k1, newnz1)
  {
    hide RefineLoop, Partly, CorrBits, Decoding;
    Assoc3(pre, c.head, rest);
  }

  /** One unfolding of the encoder's main pass. */
  lemma {:induction false} CodeStep(b: Band, z: seq<int>, a: seq<nat>, eob: nat, k: nat, r: nat, br: seq<bool>)
    requires b.se < |a| == |z|
    ensures var c := RefineCode(b, z, a, eob, k, r, br);
      if k > b.se then c == BlockCode([], r > 0 || br != [], br)
      else if a[k] == 0 then c == RefineCode(b, z, a, eob, k + 1, r + 1, br)
      else if r > 15 && k <= eob then
        c == Before([Sym(b.tbl, ZRL)] + BitTokens(br), RefineCode(b, z, a, eob, k, r - 16, []))
      else if a[k] > 1 then c == RefineCode(b, z, a, eob, k + 1, r, br + [a[k] % 2 == 1])
      else c == Before([Sym(b.tbl, r * 16 + 1), Bits(if z[k] < 0 then 0 else 1, 1)] + BitTokens(br),
                       RefineCode(b, z, a, eob, k + 1, 0, []))
  {
  }

  lemma {:induction false} AtEnd(b: Band, z: seq<int>, a: seq<nat>, d: seq<int>, k0: nat, p: nat, r: nat, rest: seq<Token>, newnz: seq<nat>)
    requires Decoding(b, z, a, d) && InBlock(newnz) && Window(b, a, k0, p, b.se + 1, r)
    ensures var br := CorrBits(a, k0, b.se + 1);
      Reaches(b, z, a, d, BlockCode([], r > 0 || br != [], br), rest, k0, newnz, k0, newnz)
  {
    StretchEmpty(a, k0, b.se + 1);
    hide RefineLoop, Partly, CorrBits, Decoding;
    assert [] + rest == rest;
  }

  /** The decoder, fed the head of a block's code, reaches the place where that block's
      EOB belongs (or its end), with everything before it refined; the tail of the code is
      the correction bits from there on. */
  lemma {:induction false} HeadDecodes(
      b: Band, z: seq<int>, a: seq<nat>, d: seq<int>, k0: nat, p: nat, k: nat, r: nat, rest: seq<Token>, newnz: seq<nat>)
    returns (k1: nat, newnz1: seq<nat>)
    requires Decoding(b, z, a, d) && InBlock(newnz) && Window(b, a, k0, p, k, r)
    ensures Reaches(b, z, a, d, RefineCode(b, z, a, LastNew(a, b.ss, b.se + 1), k, r, CorrBits(a, k0, k)), rest,
                    k0, newnz, k1, newnz1)
    decreases b.se + 1 - k, r
  {
    var eob, br := LastNew(a, b.ss, b.se + 1), CorrBits(a, k0, k);
    CodeStep(b, z, a, eob, k, r, br);
    if k > b.se {
      k1, newnz1 := k0, newnz;
      AtEnd(b, z, a, d, k0, p, r, rest, newnz);
      hide *;
    } else if a[k] == 0 {
      WindowZero(b, a, k0, p, k, r);
      hide *;
      k1, newnz1 := HeadDecodes(b, z, a, d, k0, p, k + 1, r + 1, rest, newnz);
    } else if r > 15 && k <= eob {
      var c1 := RefineCode(b, z, a, eob, k, r - 16, []);
      var kz := ZrlDecodes(b, z, a, d, k0, p, k, c1.head + rest, newnz);
      WindowStart(b, a, kz, k);
      hide *;
      k1, newnz1 := HeadDecodes(b, z, a, d, kz, kz, k, r - 16, rest, newnz);
      ReachesBefore(b, z, a, d, [Sym(b.tbl, ZRL)] + BitTokens(br), c1, rest, k0, newnz, kz, newnz, k1, newnz1);
    } else if a[k] > 1 {
      WindowOld(b, a, k0, p, k, r);
      hide *;
      k1, newnz1 := HeadDecodes(b, z, a, d, k0, k + 1, k + 1, r, rest, newnz);
    } else {
      var c1 := RefineCode(b, z, a, eob, k + 1, 0, []);
      NewDecodes(b, z, a, d, k0, k, c1.head + rest, newnz);
      WindowStart(b, a, k + 1, k + 1);
      assert InBlock(newnz + [k]);
      var pre := NewTokens(b, z, a, k0, k);
      assert pre == [Sym(b.tbl, r * 16 + 1), Bits(if z[k] < 0 then 0 else 1, 1)];
      hide *;
      k1, newnz1 := HeadDecodes(b, z, a, d, k + 1, k + 1, k + 1, 0, rest, newnz + [k]);
      ReachesBefore(b, z, a, d, pre + BitTokens(br), c1, rest, k0, newnz, k + 1, newnz + [k], k1, newnz1);
    }
  }

  lemma {:induction false} AllZeros(a: seq<nat>, i: nat, j: nat)
    requires i <= j <= |a| && forall x :: i <= x < j ==> a[x] == 0
    ensures Zeros(a, i, j) == j - i && CorrBits(a, i, j) == []
    decreases j - i
  {
    if i < j {
      AllZeros(a, i + 1, j);
    }
  }

  /** A stretch without newly nonzero coefficients is empty exactly when it has neither
      zeros nor correction bits. */
  lemma {:induction false} StretchEmpty(a: seq<nat>, i: nat, j: nat)
    requires i <= j <= |a| && NoNew(a, i, j)
    ensures (Zeros(a, i, j) > 0 || CorrBits(a, i, j) != []) <==> i < j
  {
  }

  // ----- a whole refinement scan -----

  lemma {:induction false} TailBit(b: Band, bit: bool, ts: seq<Token>, k: nat, d: seq<int>)
    requires k <= b.se < |d| && d[k] != 0
    ensures RefineTail(b, [BitToken(bit)] + ts, k, d)
         == RefineTail(b, ts, k + 1, d[k := Correct(d[k], if bit then 1 else 0, b.al)])
  {
    assert ([BitToken(bit)] + ts)[1..] == ts;
    hide Correct;
  }

  lemma {:induction false} TailDecodes(b: Band, z: seq<int>, a: seq<nat>, d: seq<int>, k: nat, rest: seq<Token>)
    requires Decoding(b, z, a, d) && b.ss <= k <= b.se + 1 && NoNew(a, k, b.se + 1)
    ensures RefineTail(b, BitTokens(CorrBits(a, k, b.se + 1)) + rest, k, Partly(b, z, d, k))
         == SkipTo(rest, b.se + 1, Partly(b, z, d, b.se + 1))
    decreases b.se + 1 - k
  {
    if k == b.se + 1 {
      assert BitTokens(CorrBits(a, k, b.se + 1)) + rest == rest;
      hide Partly;
    } else {
      PartlyStep(b, z, d, k);
      assert a[k] == Magnitude(z[k], b.al);
      var bits := if a[k] > 1 then [a[k] % 2 == 1] else [];
      assert CorrBits(a, k, b.se + 1) == bits + CorrBits(a, k + 1, b.se + 1);
      TailDecodes(b, z, a, d, k + 1, rest);
      var ts := BitTokens(CorrBits(a, k + 1, b.se + 1)) + rest;
      if a[k] > 1 {
        hide *;
        BitTokensFront(a[k] % 2 == 1, CorrBits(a, k + 1, b.se + 1), rest);
        TailBit(b, a[k] % 2 == 1, ts, k, Partly(b, z, d, k));
      } else {
        assert [] + CorrBits(a, k + 1, b.se + 1) == CorrBits(a, k + 1, b.se + 1);
        hide CorrBits, BitTokens, Partly;
      }
    }
  }

  /** A block with nothing to emit outright has no newly nonzero coefficient, and its tail
      is all its correction bits. */
  lemma {:induction false} HeadEmpty(b: Band, z: seq<int>, a: seq<nat>, eob: nat, k: nat, r: nat, br: seq<bool>)
    requires b.se < |a| == |z| && k <= b.se + 1 && RefineCode(b, z, a, eob, k, r, br).head == []
    ensures NoNew(a, k, b.se + 1)
    ensures RefineCode(b, z, a, eob, k, r, br).tail == br + CorrBits(a, k, b.se + 1)
    ensures RefineCode(b, z, a, eob, k, r, br).eob <==> r > 0 || br != [] || k <= b.se
    decreases b.se + 1 - k, r
  {
    CodeStep(b, z, a, eob, k, r, br);
    hide RefineCode, BitTokens;
    if k > b.se {
    } else if a[k] == 0 {
      HeadEmpty(b, z, a, eob, k + 1, r + 1, br);
    } else if r > 15 && k <= eob {
      assert false;
    } else if a[k] > 1 {
      HeadEmpty(b, z, a, eob, k + 1, r, br + [a[k] % 2 == 1]);
    } else {
      assert false;
    }
  }

  lemma {:induction false} CodeIsOk(b: Band, z: seq<int>, d: seq<int>)
    requires Decoding(b, z, Magnitudes(z, b.al), d)
    ensures BlockCodeOk(BlockRefinement(b, z))
    ensures var a, c := Magnitudes(z, b.al), BlockRefinement(b, z);
      c.head == [] ==> NoNew(a, b.ss, b.se + 1) && c.tail == CorrBits(a, b.ss, b.se + 1)
  {
    var a := Magnitudes(z, b.al);
    var eob := LastNew(a, b.ss, b.se + 1);
    WindowStart(b, a, b.ss, b.ss);
    var k1, n1 := HeadDecodes(b, z, a, d, b.ss, b.ss, b.ss, 0, [], []);
    hide RefineLoop, RefineCode;
    if BlockRefinement(b, z).head == [] {
      HeadEmpty(b, z, a, eob, b.ss, 0, []);
    }
  }
}
