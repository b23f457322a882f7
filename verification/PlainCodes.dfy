// How a block and a scan are coded, written down by position and without the state the coders
// carry along: the reference that the coding functions of the other modules are proved against.
module PlainCodes {
  import opened Arith
  import opened Coefficients
  import opened Tokens
  import opened AcRefine
  import opened AcFirst
  import D = DcScan

  // ----- numbers -----

  /** Tables F.1 and F.2 of ITU-T T.81: category n and the n bits m of the number v. A positive
      number is sent as it is, a negative one as the complement of its absolute value. */
  ghost predicate Codes(v: int, n: nat, m: nat) {
    if v == 0 then n == 0 && m == 0
    else
      && n >= 1 && Pow2(n - 1) <= Abs(v) < Pow2(n)
      && m == if v > 0 then v else Pow2(n) - 1 - (-v)
  }

  /** The number of bits and the bits sent are those of the tables, and what extending them gives
      is the number; no other category codes it. */
  lemma {:induction false} NumberCoded(v: int)
    ensures Codes(v, NBits(Abs(v)), MagnitudeBits(v, NBits(Abs(v))))
    ensures forall n: nat, m: nat :: Codes(v, n, m) ==> n == NBits(Abs(v)) && m == MagnitudeBits(v, n)
    ensures forall n: nat, m: nat :: Codes(v, n, m) && n > 0 ==> HuffExtend(m, n) == v
  {
    var n := NBits(Abs(v));
    if v != 0 {
      NBitsRange(Abs(v));
      if v < 0 {
        DivUnique(v - 1, Pow2(n), -1, v - 1 + Pow2(n));
      } else {
        DivUnique(v, Pow2(n), 0, v);
      }
      forall n1: nat, m: nat | Codes(v, n1, m)
        ensures n1 == n && m == MagnitudeBits(v, n1) && HuffExtend(m, n1) == v
      {
        OneCategory(Abs(v), n1, n);
        assert Pow2(n) == 2 * Pow2(n - 1);
      }
    } else {
      assert MagnitudeBits(0, 0) == 0;
    }
  }

  lemma {:induction false} OneCategory(a: nat, n: nat, k: nat)
    requires n >= 1 && k >= 1 && Pow2(n - 1) <= a < Pow2(n) && Pow2(k - 1) <= a < Pow2(k)
    ensures n == k
  {
    if n < k {
      Pow2Mono(n, k - 1);
    } else if k < n {
      Pow2Mono(k, n - 1);
    }
  }

  /** The coders refuse exactly the numbers that do not fit: AC values from 1024 on and DC
      differences from 2048 on, in absolute value. */
  lemma {:induction false} SizeLimits(v: int)
    ensures NBits(Abs(v)) <= MAX_COEF_BITS <==> -1024 < v < 1024
    ensures NBits(Abs(v)) <= MAX_COEF_BITS + 1 <==> -2048 < v < 2048
  {
    Pow2Values();
    if v != 0 {
      NBitsRange(Abs(v));
    }
    if Abs(v) < 1024 {
      NBitsBound(Abs(v), 10);
    } else {
      Pow2Above(NBits(Abs(v)), 10, Abs(v));
    }
    if Abs(v) < 2048 {
      NBitsBound(Abs(v), 11);
    } else {
      Pow2Above(NBits(Abs(v)), 11, Abs(v));
    }
  }

  lemma {:induction false} Pow2Above(n: nat, k: nat, a: nat)
    requires Pow2(k) <= a < Pow2(n)
    ensures n > k
  {
    if n <= k {
      Pow2Mono(n, k);
    }
  }

  /** A symbol with run length r for the number v, and v's bits when it has any. */
  function Coded(tbl: Table, r: nat, v: int): seq<Token> {
    var n := NBits(Abs(v));
    [Sym(tbl, 16 * r + n)] + if v == 0 then [] else [Bits(MagnitudeBits(v, n), n)]
  }

  lemma {:induction false} DiffCoded(tbl: Table, diff: int)
    ensures D.DiffTokens(tbl, diff) == Coded(tbl, 0, diff)
  {
    if diff != 0 {
      NBitsRange(Abs(diff));
    }
  }

  // ----- point transforms -----

  /** What is known of a coefficient down to bit al: an AC value loses the low bits of its absolute
      value, so it moves towards zero and keeps its sign; a DC value moves down. */
  lemma {:induction false} ShownNear(v: int, al: nat)
    ensures Abs(AcShown(v, al)) <= Abs(v) < Abs(AcShown(v, al)) + Pow2(al)
    ensures AcShown(v, al) != 0 ==> (AcShown(v, al) > 0 <==> v > 0)
    ensures DcShown(v, al) <= v < DcShown(v, al) + Pow2(al)
    ensures AcShown(v, al) % Pow2(al) == 0 && DcShown(v, al) % Pow2(al) == 0
  {
    hide Pow2, ShiftRight;
    Floor(v, Pow2(al));
    Floor(Abs(v), Pow2(al));
    Multiple(DcPoint(v, al), Pow2(al));
    Multiple(Magnitude(v, al), Pow2(al));
    Multiple(AcPoint(v, al), Pow2(al));
    assert Magnitude(v, al) == Abs(v) / Pow2(al) by { ShiftIs(Abs(v), al); }
    AcSize(v, al);
  }

  lemma {:induction false} ShiftIs(a: nat, n: nat)
    ensures ShiftRight(a, n) == a / Pow2(n)
  {
    hide Pow2;
  }

  lemma {:induction false} AcSize(v: int, al: nat)
    ensures Abs(AcShown(v, al)) == Magnitude(v, al) * Pow2(al) && (AcShown(v, al) > 0 ==> v > 0) && (AcShown(v, al) < 0 ==> v < 0)
  {
    hide Pow2, ShiftRight;
    Multiple(Magnitude(v, al), Pow2(al));
    var m: int := Magnitude(v, al);
    Multiple(-m, Pow2(al));
  }

  lemma {:induction false} Multiple(a: int, p: nat)
    requires p > 0
    ensures (a * p) % p == 0 && (a < 0 ==> a * p < 0) && (a > 0 ==> a * p > 0) && (-a) * p == -(a * p)
  {
    DivUnique(a * p, p, a, 0);
  }

  lemma {:induction false} Floor(v: int, p: nat)
    requires p > 0
    ensures (v / p) * p <= v < (v / p) * p + p
  {
  }

  // ----- the first scan of a band -----

  /** How many of the coefficients right before position k vanish. */
  function Zeros(b: Band, z: seq<int>, k: nat): nat
    requires k <= |z|
  {
    if k <= b.ss || AcPoint(z[k - 1], b.al) != 0 then 0 else 1 + Zeros(b, z, k - 1)
  }

  /** A coefficient that does not vanish is sent with the zeros before it, 16 at a time by the
      symbol 0xF0 and the rest as the run length of its own symbol. */
  function CoefPlain(b: Band, z: seq<int>, k: nat): seq<Token>
    requires k < |z|
  {
    var p := AcPoint(z[k], b.al);
    if p == 0 then []
    else seq(Zeros(b, z, k) / 16, _ => Sym(b.tbl, 0xF0)) + Coded(b.tbl, Zeros(b, z, k) % 16, p)
  }

  function CoefsPlain(b: Band, z: seq<int>, k: nat): seq<Token>
    requires k <= b.se + 1 <= |z|
    decreases b.se + 1 - k
  {
    if k > b.se then [] else CoefPlain(b, z, k) + CoefsPlain(b, z, k + 1)
  }

  /** The coder of a first scan sends each coefficient of the band as above, and ends the block
      with an EOB exactly when the last coefficient vanishes. */
  lemma {:induction false} FirstIsPlain(b: Band, z: seq<int>)
    requires BandOk(b) && |z| == 64
    ensures FirstCode(b, z, b.ss, 0) == BlockCode(CoefsPlain(b, z, b.ss), AcPoint(z[b.se], b.al) == 0, [])
  {
    hide AcPoint;
    FirstFrom(b, z, b.ss);
  }

  lemma {:induction false} FirstFrom(b: Band, z: seq<int>, k: nat)
    requires BandOk(b) && |z| == 64 && b.ss <= k <= b.se + 1
    ensures FirstCode(b, z, k, Zeros(b, z, k)) == BlockCode(CoefsPlain(b, z, k), Zeros(b, z, b.se + 1) > 0, [])
    decreases b.se + 1 - k
  {
    hide AcPoint;
    if k <= b.se {
      FirstFrom(b, z, k + 1);
      var p, r := AcPoint(z[k], b.al), Zeros(b, z, k);
      if p == 0 {
        assert Zeros(b, z, k + 1) == r + 1;
        assert [] + CoefsPlain(b, z, k + 1) == CoefsPlain(b, z, k + 1);
      } else {
        assert Zeros(b, z, k + 1) == 0;
        SameTokens(b.tbl, r, p);
      }
    }
  }

  lemma {:induction false} SameTokens(tbl: Table, r: nat, p: int)
    requires p != 0
    ensures Zrls(tbl, r / 16) + ValueTokens(tbl, r % 16, p) == seq(r / 16, _ => Sym(tbl, 0xF0)) + Coded(tbl, r % 16, p)
  {
    hide NBits, MagnitudeBits;
    assert Zrls(tbl, r / 16) == seq(r / 16, _ => Sym(tbl, 0xF0));
  }

  // ----- a refinement of a band -----

  /** Whether a coefficient from position k on becomes nonzero in this scan. */
  ghost predicate NewAhead(b: Band, z: seq<int>, k: nat)
    requires b.se < |z|
  {
    exists j :: k <= j <= b.se && Magnitude(z[j], b.al) == 1
  }

  /** The coefficients before position k, since the last one that became nonzero, that stay zero. */
  function Still(b: Band, z: seq<int>, k: nat): nat
    requires k <= |z|
  {
    if k <= b.ss || Magnitude(z[k - 1], b.al) == 1 then 0
    else Still(b, z, k - 1) + if Magnitude(z[k - 1], b.al) == 0 then 1 else 0
  }

  /** How many sixteens of them have been sent before position k. */
  ghost function Sent(b: Band, z: seq<int>, k: nat): nat
    requires k <= b.se + 1 <= |z|
    decreases k
  {
    if k <= b.ss || Magnitude(z[k - 1], b.al) == 1 then 0
    else if Magnitude(z[k - 1], b.al) > 1 && NewAhead(b, z, k - 1) then Still(b, z, k - 1) / 16
    else Sent(b, z, k - 1)
  }

  /** How many are sent at position k: those that are due at a nonzero coefficient, unless the
      coming EOB covers them. */
  ghost function Due(b: Band, z: seq<int>, k: nat): int
    requires k <= b.se < |z|
  {
    if Magnitude(z[k], b.al) != 0 && NewAhead(b, z, k) then Still(b, z, k) / 16 - Sent(b, z, k) else 0
  }

  /** The correction bits not sent yet before position k. */
  ghost function Unsent(b: Band, z: seq<int>, k: nat): seq<bool>
    requires k <= b.se + 1 <= |z|
    decreases k
  {
    if k <= b.ss || Magnitude(z[k - 1], b.al) == 1 then []
    else if Magnitude(z[k - 1], b.al) == 0 then Unsent(b, z, k - 1)
    else (if Due(b, z, k - 1) > 0 then [] else Unsent(b, z, k - 1)) + [Magnitude(z[k - 1], b.al) % 2 == 1]
  }

  function Corrections(bs: seq<bool>): seq<Token> {
    seq(|bs|, i requires 0 <= i < |bs| => Bits(if bs[i] then 1 else 0, 1))
  }

  /** At a nonzero coefficient the zeros that are due are sent, the bits with the first sixteen; one
      that becomes nonzero follows with the rest of its zeros, its sign, 1 for positive, and the bits. */
  ghost function RefinedPlain(b: Band, z: seq<int>, k: nat): seq<Token>
    requires k <= b.se < |z|
  {
    var due := Due(b, z, k);
    var zeros := if due > 0 then [Sym(b.tbl, 0xF0)] + Corrections(Unsent(b, z, k)) + seq(due - 1, _ => Sym(b.tbl, 0xF0)) else [];
    var bits := if due > 0 then [] else Unsent(b, z, k);
    if Magnitude(z[k], b.al) == 1 then
      zeros + ([Sym(b.tbl, 16 * (Still(b, z, k) % 16) + 1), Bits(if z[k] > 0 then 1 else 0, 1)] + Corrections(bits))
    else zeros
  }

  ghost function BandPlain(b: Band, z: seq<int>, k: nat): seq<Token>
    requires k <= b.se + 1 <= |z|
    decreases b.se + 1 - k
  {
    if k > b.se then [] else RefinedPlain(b, z, k) + BandPlain(b, z, k + 1)
  }

  /** The coder of a refinement sends each coefficient of the band as above, and ends the block with
      an EOB and the bits left exactly when the last coefficient does not become nonzero. */
  lemma {:induction false} RefinementIsPlain(b: Band, z: seq<int>)
    requires BandOk(b) && |z| == 64
    ensures BlockRefinement(b, z) == BlockCode(BandPlain(b, z, b.ss), Magnitude(z[b.se], b.al) != 1, Unsent(b, z, b.se + 1))
  {
    hide Magnitude;
    RefinedFrom(b, z, b.ss);
  }

  // The zeros pending at position k.
  ghost function Pending(b: Band, z: seq<int>, k: nat): int
    requires k <= b.se + 1 <= |z|
  {
    Still(b, z, k) - 16 * Sent(b, z, k)
  }

  lemma {:induction false} PendingNext(b: Band, z: seq<int>, k: nat)
    requires b.ss <= k <= b.se < |z|
    ensures Pending(b, z, k) >= 0
    ensures Due(b, z, k) == if Magnitude(z[k], b.al) != 0 && NewAhead(b, z, k) then Pending(b, z, k) / 16 else 0
    ensures Pending(b, z, k + 1) == if Magnitude(z[k], b.al) == 1 then 0
      else if Magnitude(z[k], b.al) == 0 then Pending(b, z, k) + 1
      else if NewAhead(b, z, k) then Pending(b, z, k) % 16 else Pending(b, z, k)
    ensures Pending(b, z, k) % 16 == Still(b, z, k) % 16
    decreases k
  {
    hide Magnitude, NewAhead;
    if k > b.ss {
      PendingNext(b, z, k - 1);
    }
    Sixteens(Still(b, z, k), Sent(b, z, k));
  }

  lemma {:induction false} Sixteens(a: nat, s: nat)
    ensures (a - 16 * s) / 16 == a / 16 - s && (a - 16 * s) % 16 == a % 16
    ensures a - 16 * (a / 16) == a % 16
  {
  }

  lemma {:induction false} LastIsAhead(b: Band, z: seq<int>, k: nat)
    requires BandOk(b) && |z| == 64 && b.ss <= k <= b.se
    ensures k <= LastNew(Magnitudes(z, b.al), b.ss, b.se + 1) <==> NewAhead(b, z, k)
  {
    LastFound(Magnitudes(z, b.al), b.ss, b.se + 1);
    hide Magnitude;
    var e := LastNew(Magnitudes(z, b.al), b.ss, b.se + 1);
    if k <= e {
      assert Magnitudes(z, b.al)[e] == Magnitude(z[e], b.al);
    }
    if NewAhead(b, z, k) {
      var j :| k <= j <= b.se && Magnitude(z[j], b.al) == 1;
      assert Magnitudes(z, b.al)[j] == 1;
    }
  }

  lemma {:induction false} LastFound(a: seq<nat>, ss: nat, k: nat)
    requires k <= |a|
    ensures var e := LastNew(a, ss, k); e == 0 || (ss <= e < k && a[e] == 1)
  {
    if k > ss && a[k - 1] != 1 {
      LastFound(a, ss, k - 1);
    }
  }

  // The sixteens due at a nonzero coefficient.
  lemma {:induction false} SixteensOut(b: Band, z: seq<int>, a: seq<nat>, eob: nat, k: nat, r: nat, br: seq<bool>)
    requires b.se < |a| == |z| && k <= b.se && a[k] != 0 && k <= eob && r > 15
    ensures RefineCode(b, z, a, eob, k, r, br)
         == Before([Sym(b.tbl, 0xF0)] + Corrections(br) + seq(r / 16 - 1, _ => Sym(b.tbl, 0xF0)), RefineCode(b, z, a, eob, k, r % 16, []))
    decreases r
  {
    var later := RefineCode(b, z, a, eob, k, r - 16, []);
    assert BitTokens(br) == Corrections(br);
    var first := [Sym(b.tbl, 0xF0)] + Corrections(br);
    assert RefineCode(b, z, a, eob, k, r, br) == Before(first, later);
    Sixteens(r, 1);
    if r - 16 > 15 {
      SixteensOut(b, z, a, eob, k, r - 16, []);
      var more := [Sym(b.tbl, 0xF0)] + Corrections([]) + seq((r - 16) / 16 - 1, _ => Sym(b.tbl, 0xF0));
      assert more == seq(r / 16 - 1, _ => Sym(b.tbl, 0xF0));
      TwoBefore(first, more, RefineCode(b, z, a, eob, k, r % 16, []));
    } else {
      assert first + seq(r / 16 - 1, _ => Sym(b.tbl, 0xF0)) == first;
    }
  }

  lemma {:induction false} TwoBefore(s: seq<Token>, t: seq<Token>, c: BlockCode)
    ensures Before(s, Before(t, c)) == Before(s + t, c)
  {
    Assoc3(s, t, c.head);
  }

  lemma {:induction false} RefinedFrom(b: Band, z: seq<int>, k: nat)
    requires BandOk(b) && |z| == 64 && b.ss <= k <= b.se + 1
    ensures Pending(b, z, k) >= 0
    ensures var a := Magnitudes(z, b.al);
      RefineCode(b, z, a, LastNew(a, b.ss, b.se + 1), k, Pending(b, z, k), Unsent(b, z, k))
      == BlockCode(BandPlain(b, z, k), Magnitude(z[b.se], b.al) != 1, Unsent(b, z, b.se + 1))
    decreases b.se + 1 - k
  {
    hide Magnitude;
    if k > b.se {
      PendingNext(b, z, b.se);
    } else {
      PendingNext(b, z, k);
      RefinedFrom(b, z, k + 1);
      LastIsAhead(b, z, k);
      RefinedStep(b, z, k);
    }
  }

  lemma {:induction false} RefinedStep(b: Band, z: seq<int>, k: nat)
    requires BandOk(b) && |z| == 64 && b.ss <= k <= b.se && Pending(b, z, k) >= 0 && Pending(b, z, k + 1) >= 0
    ensures var a := Magnitudes(z, b.al); var eob := LastNew(a, b.ss, b.se + 1);
      RefineCode(b, z, a, eob, k, Pending(b, z, k), Unsent(b, z, k))
      == Before(RefinedPlain(b, z, k), RefineCode(b, z, a, eob, k + 1, Pending(b, z, k + 1), Unsent(b, z, k + 1)))
  {
    hide Magnitude, RefineCode, Still, Sent, LastNew, BandPlain, NewAhead, Pending, Due;
    var a := Magnitudes(z, b.al);
    var eob, r, br := LastNew(a, b.ss, b.se + 1), Pending(b, z, k), Unsent(b, z, k);
    PendingNext(b, z, k);
    LastIsAhead(b, z, k);
    var later := RefineCode(b, z, a, eob, k + 1, Pending(b, z, k + 1), Unsent(b, z, k + 1));
    assert a[k] == Magnitude(z[k], b.al);
    if a[k] == 0 {
      ZeroRefined(b, z, a, eob, k, r, br);
      assert RefinedPlain(b, z, k) == [];
      assert Before([], later) == later by { assert [] + later.head == later.head; }
    } else if k <= eob && r > 15 {
      SixteensOut(b, z, a, eob, k, r, br);
      var zeros := [Sym(b.tbl, 0xF0)] + Corrections(br) + seq(r / 16 - 1, _ => Sym(b.tbl, 0xF0));
      OneRefined(b, z, a, eob, k, r % 16, []);
      if a[k] == 1 {
        NewIsAhead(b, z, k);
        TwoBefore(zeros, [Sym(b.tbl, 16 * (r % 16) + 1), Bits(if z[k] > 0 then 1 else 0, 1)] + Corrections([]), later);
      } else {
        assert RefinedPlain(b, z, k) == zeros;
      }
    } else {
      OneRefined(b, z, a, eob, k, r, br);
      if a[k] == 1 {
        NewIsAhead(b, z, k);
      } else {
        assert RefinedPlain(b, z, k) == [];
        assert Before([], later) == later by { assert [] + later.head == later.head; }
      }
    }
  }

  lemma {:induction false} NewIsAhead(b: Band, z: seq<int>, k: nat)
    requires k <= b.se < |z| && Magnitude(z[k], b.al) == 1
    ensures NewAhead(b, z, k) && z[k] != 0
  {
    ZeroStays(b.al);
    hide Magnitude;
  }

  lemma {:induction false} ZeroStays(al: nat)
    ensures Magnitude(0, al) == 0
  {
  }

  lemma {:induction false} ZeroRefined(b: Band, z: seq<int>, a: seq<nat>, eob: nat, k: nat, r: nat, br: seq<bool>)
    requires b.se < |a| == |z| && k <= b.se && a[k] == 0
    ensures RefineCode(b, z, a, eob, k, r, br) == RefineCode(b, z, a, eob, k + 1, r + 1, br)
  {
  }

  // A nonzero coefficient before which nothing is due.
  lemma {:induction false} OneRefined(b: Band, z: seq<int>, a: seq<nat>, eob: nat, k: nat, r: nat, br: seq<bool>)
    requires b.se < |a| == |z| && k <= b.se && a[k] != 0 && !(r > 15 && k <= eob)
    ensures RefineCode(b, z, a, eob, k, r, br) ==
      (if a[k] > 1 then RefineCode(b, z, a, eob, k + 1, r, br + [a[k] % 2 == 1])
       else Before([Sym(b.tbl, 16 * r + 1), Bits(if z[k] < 0 then 0 else 1, 1)] + Corrections(br), RefineCode(b, z, a, eob, k + 1, 0, [])))
  {
    assert BitTokens(br) == Corrections(br);
  }

  // ----- EOB runs -----

  /** A run of 2^n to 2^(n+1) - 1 blocks is sent as the symbol of run length n with size 0, the n
      low bits of the run, and the correction bits of its blocks, 1 for true. */
  lemma {:induction false} RunPlain(tbl: Table, run: nat, n: nat, corr: seq<bool>)
    requires Pow2(n) <= run < Pow2(n + 1)
    ensures EobTokens(tbl, run, corr)
         == [Sym(tbl, 16 * n)] + (if n > 0 then [Bits(run - Pow2(n), n)] else [])
          + Corrections(corr)
  {
    NBitsRange(run);
    OneCategory(run, NBits(run), n + 1);
    assert Pow2(n + 1) == 2 * Pow2(n);
    DivUnique(run, Pow2(n), 1, run - Pow2(n));
  }

  /** A run leaves at once when it counts 32767 blocks, or when another block's bits might not fit in
      the buffer of 1000. */
  lemma {:induction false} RunLimits(st: RunState, b: BlockCode)
    ensures ForcedOut(st, b) <==>
      b.eob && var before := if b.head == [] then st else RunState(0, []);
               before.run + 1 == 32767 || |before.corr| + |b.tail| > 1000 - 63
  {
  }

  // ----- restart markers -----

  /** A marker stands before MCU m when m is a positive multiple of the interval; they are
      numbered from 0 and start over after 7. */
  function Marked(interval: nat, m: nat): bool {
    interval > 0 && m > 0 && m % interval == 0
  }

  function MarkerNum(interval: nat, m: nat): (num: nat)
    requires Marked(interval, m)
    ensures num < 8
  {
    (m / interval - 1) % 8
  }

  /** The events of a scan from MCU m on. */
  function Spread<T>(items: seq<T>, interval: nat, m: nat): seq<Event<T>>
    requires m <= |items|
    decreases |items| - m
  {
    if m == |items| then []
    else (if Marked(interval, m) then [Restart(MarkerNum(interval, m))] else []) + ([Item(items[m])] + Spread(items, interval, m + 1))
  }

  lemma {:induction false} RestartsSpread<T>(items: seq<T>, interval: nat)
    ensures WithRestarts(items, interval, interval, 0) == Spread(items, interval, 0)
  {
    assert items[0..] == items;
    SpreadFrom(items, interval, 0, interval, 0);
  }

  // The counters before MCU m.
  ghost predicate Counters(interval: nat, m: nat, togo: nat, num: nat) {
    if interval == 0 then togo == 0
    else if m == 0 then togo == interval && num == 0
    else togo == interval - 1 - (m - 1) % interval && num == ((m - 1) / interval) % 8
  }

  lemma {:induction false} SpreadFrom<T>(items: seq<T>, interval: nat, m: nat, togo: nat, num: nat)
    requires m <= |items| && Counters(interval, m, togo, num)
    ensures WithRestarts(items[m..], interval, togo, num) == Spread(items, interval, m)
    decreases |items| - m
  {
    if m < |items| {
      assert items[m..][1..] == items[m + 1..];
      if interval > 0 {
        MarkerPlace(interval, m, togo, num);
        if togo == 0 {
          SpreadFrom(items, interval, m + 1, interval - 1, (num + 1) % 8);
        } else {
          SpreadFrom(items, interval, m + 1, togo - 1, num);
        }
      } else {
        SpreadFrom(items, interval, m + 1, togo, num);
      }
    }
  }

  lemma {:induction false} MarkerPlace(interval: nat, m: nat, togo: nat, num: nat)
    requires interval > 0 && Counters(interval, m, togo, num)
    ensures togo == 0 <==> Marked(interval, m)
    ensures togo == 0 ==> num == MarkerNum(interval, m) && Counters(interval, m + 1, interval - 1, (num + 1) % 8)
    ensures togo > 0 ==> Counters(interval, m + 1, togo - 1, num)
  {
    if m == 0 {
      assert (m + 1 - 1) % interval == 0 && (m + 1 - 1) / interval == 0;
    } else {
      var q, r := (m - 1) / interval, (m - 1) % interval;
      if r == interval - 1 {
        Unwound(interval, q);
        DivUnique(m, interval, q + 1, 0);
      } else {
        DivUnique(m, interval, q, r + 1);
      }
    }
  }

  lemma {:induction false} Unwound(interval: nat, q: nat)
    ensures interval * (q + 1) == interval * q + interval && (q + 1) % 8 == (q % 8 + 1) % 8
  {
  }
}
