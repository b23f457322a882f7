// First scan of an AC band (section G.1.2.2 of ITU-T T.81): run lengths and point-transformed
// values, with trailing zeros left to the EOB run.
module AcFirst {
  import opened Arith
  import opened Coefficients
  import opened Tokens
  import opened AcRefine

  function Zrls(tbl: Table, n: nat): seq<Token> {
    seq(n, _ => Sym(tbl, ZRL))
  }

  /** The symbol and value bits of a coefficient whose transformed value is p. */
  function ValueTokens(tbl: Table, r: nat, p: int): seq<Token> {
    [Sym(tbl, r * 16 + NBits(Abs(p))), Bits(MagnitudeBits(p, NBits(Abs(p))), NBits(Abs(p)))]
  }

  /** The main pass from position k, with r zeros pending. */
  function FirstCode(b: Band, z: seq<int>, k: nat, r: nat): BlockCode
    requires b.se < |z|
    decreases b.se + 1 - k
  {
    if k > b.se then BlockCode([], r > 0, [])
    else
      var p := AcPoint(z[k], b.al);
      if p == 0 then FirstCode(b, z, k + 1, r + 1)
      else Before(Zrls(b.tbl, r / 16) + ValueTokens(b.tbl, r % 16, p), FirstCode(b, z, k + 1, 0))
  }

  datatype FirstOut = FirstDone(ts: seq<Token>, run: nat, d: seq<int>) | FirstStarved(d: seq<int>) | FirstGarbled

  /** decode_mcu_AC_first when no EOB run is pending; `run` counts the blocks still to come. */
  function FirstLoop(b: Band, ts: seq<Token>, k: nat, d: seq<int>): (o: FirstOut)
    requires BandOk(b) && |d| == 64
    ensures o.FirstDone? || o.FirstStarved? ==> |o.d| == 64
    decreases |ts|
  {
    if k > b.se then FirstDone(ts, 0, d)
    else match ReadSym(ts, b.tbl)
      case NoSym => FirstStarved(d)
      case WrongSym => FirstGarbled
      case GotSym(s, ts1) =>
        var r, n := s / 16, s % 16;
        if n != 0 then
          match ReadBits(ts1, n)
          case NoData => FirstStarved(d)
          case WrongKind => FirstGarbled
          case Got(v, ts2) =>
            FirstLoop(b, ts2, k + r + 1, d[Clamp(k + r) := HuffExtend(v, n) * Pow2(b.al)])
        else if r == 15 then FirstLoop(b, ts1, k + 16, d)
        else if r == 0 then FirstDone(ts1, 0, d)
        else match ReadBits(ts1, r)
          case NoData => FirstStarved(d)
          case WrongKind => FirstGarbled
          case Got(v, ts2) => FirstDone(ts2, Pow2(r) + v - 1, d)
  }

  ghost predicate BandClear(b: Band, d: seq<int>)
    requires BandOk(b) && |d| == 64
  {
    forall k :: b.ss <= k <= b.se ==> d[k] == 0
  }

  ghost predicate AllVanish(b: Band, z: seq<int>, i: nat, j: nat)
    requires j <= |z|
  {
    forall x :: i <= x < j ==> AcPoint(z[x], b.al) == 0
  }

  lemma {:induction false} PartlyVanish(b: Band, z: seq<int>, d: seq<int>, i: nat, j: nat)
    requires BandOk(b) && |d| == |z| == 64 && BandClear(b, d) && b.ss <= i <= j <= b.se + 1 && AllVanish(b, z, i, j)
    ensures Partly(b, z, d, i) == Partly(b, z, d, j)
  {
    var l, r := Partly(b, z, d, i), Partly(b, z, d, j);
    forall k | 0 <= k < 64 ensures l[k] == r[k] {
      if i <= k < j {
        assert AcPoint(z[k], b.al) == 0;
        hide AcPoint;
      }
    }
  }

  /** n ZRL codes move the decoder 16 n positions on. */
  lemma {:induction false} ZrlsDecode(b: Band, n: nat, ts: seq<Token>, k: nat, d: seq<int>)
    requires BandOk(b) && |d| == 64 && k + 16 * n <= b.se
    ensures FirstLoop(b, Zrls(b.tbl, n) + ts, k, d) == FirstLoop(b, ts, k + 16 * n, d)
    decreases n
  {
    if n == 0 {
      assert Zrls(b.tbl, 0) + ts == ts;
    } else {
      assert (Zrls(b.tbl, n) + ts)[1..] == Zrls(b.tbl, n - 1) + ts;
      assert ReadSym(Zrls(b.tbl, n) + ts, b.tbl) == GotSym(ZRL, Zrls(b.tbl, n - 1) + ts);
      ZrlsDecode(b, n - 1, ts, k + 16, d);
      hide HuffExtend, Zrls;
    }
  }

  lemma {:induction false} ValueDecodes(b: Band, r: nat, p: int, ts: seq<Token>, k: nat, d: seq<int>)
    requires BandOk(b) && |d| == 64 && r <= 15 && k + r <= b.se && p != 0 && NBits(Abs(p)) <= MAX_COEF_BITS
    ensures FirstLoop(b, ValueTokens(b.tbl, r, p) + ts, k, d) == FirstLoop(b, ts, k + r + 1, d[k + r := p * Pow2(b.al)])
  {
    var n := NBits(Abs(p));
    MagnitudeRoundTrip(p);
    var v := MagnitudeBits(p, n);
    var all := ValueTokens(b.tbl, r, p) + ts;
    assert all[1..][1..] == ts;
    assert (r * 16 + n) / 16 == r && (r * 16 + n) % 16 == n;
    assert ReadSym(all, b.tbl) == GotSym(r * 16 + n, all[1..]);
    assert ReadBits(all[1..], n) == Got(v, ts);
    hide HuffExtend, MagnitudeBits, NBits, ReadSym, ReadBits, ValueTokens;
  }

  /** Coefficients this scan may carry: magnitudes of at most MAX_COEF_BITS bits. */
  ghost predicate InRange(b: Band, z: seq<int>)
    requires b.se < |z|
  {
    forall k :: b.ss <= k <= b.se ==> NBits(Abs(AcPoint(z[k], b.al))) <= MAX_COEF_BITS
  }

  /** What decoding the code c from k0 on achieves: everything before k1 shown, only
      vanishing coefficients after it. */
  ghost predicate FirstReaches(b: Band, z: seq<int>, d: seq<int>, c: BlockCode, rest: seq<Token>, k0: nat, k1: nat)
    requires BandOk(b) && |d| == |z| == 64
  {
    && b.ss <= k0 <= k1 <= b.se + 1 && (c.eob <==> k1 <= b.se) && c.tail == [] && AllVanish(b, z, k1, b.se + 1)
    && FirstLoop(b, c.head + rest, k0, Partly(b, z, d, k0)) == FirstLoop(b, rest, k1, Partly(b, z, d, k1))
  }

  lemma {:induction false} FirstDecodes(b: Band, z: seq<int>, d: seq<int>, k0: nat, k: nat, rest: seq<Token>) returns (k1: nat)
    requires BandOk(b) && |d| == |z| == 64 && BandClear(b, d) && InRange(b, z)
    requires b.ss <= k0 <= k <= b.se + 1 && AllVanish(b, z, k0, k)
    ensures FirstReaches(b, z, d, FirstCode(b, z, k, k - k0), rest, k0, k1)
    decreases b.se + 1 - k
  {
    if k > b.se {
      k1 := k0;
      assert [] + rest == rest;
      hide Partly, AcPoint;
    } else if AcPoint(z[k], b.al) == 0 {
      assert AllVanish(b, z, k0, k + 1);
      assert FirstCode(b, z, k, k - k0) == FirstCode(b, z, k + 1, k + 1 - k0);
      hide *;
      k1 := FirstDecodes(b, z, d, k0, k + 1, rest);
    } else {
      var p, r, c1 := AcPoint(z[k], b.al), k - k0, FirstCode(b, z, k + 1, 0);
      var pre := Zrls(b.tbl, r / 16) + ValueTokens(b.tbl, r % 16, p);
      assert FirstCode(b, z, k, r) == BlockCode(pre + c1.head, c1.eob, c1.tail);
      assert AllVanish(b, z, k + 1, k + 1);
      hide *;
      RunDecodes(b, z, d, k0, k, c1.head + rest);
      k1 := FirstDecodes(b, z, d, k + 1, k + 1, rest);
      FirstReachesBefore(b, z, d, pre, c1, rest, k0, k + 1, k1);
    }
  }

  /** A run of vanishing coefficients and the value that ends it. */
  lemma {:induction false} RunDecodes(b: Band, z: seq<int>, d: seq<int>, k0: nat, k: nat, ts: seq<Token>)
    requires BandOk(b) && |d| == |z| == 64 && BandClear(b, d) && InRange(b, z)
    requires b.ss <= k0 <= k <= b.se && AllVanish(b, z, k0, k) && AcPoint(z[k], b.al) != 0
    ensures var r := k - k0;
      FirstLoop(b, Zrls(b.tbl, r / 16) + ValueTokens(b.tbl, r % 16, AcPoint(z[k], b.al)) + ts, k0, Partly(b, z, d, k0))
      == FirstLoop(b, ts, k + 1, Partly(b, z, d, k + 1))
  {
    var p, r := AcPoint(z[k], b.al), k - k0;
    var zs, vs := Zrls(b.tbl, r / 16), ValueTokens(b.tbl, r % 16, p);
    PartlyVanish(b, z, d, k0, k);
    PartlyNext(b, z, d, k);
    assert NBits(Abs(p)) <= MAX_COEF_BITS;
    hide *;
    Assoc3(zs, vs, ts);
    ZrlsDecode(b, r / 16, vs + ts, k0, Partly(b, z, d, k));
    ValueDecodes(b, r % 16, p, ts, k0 + 16 * (r / 16), Partly(b, z, d, k));
  }

  lemma {:induction false} PartlyNext(b: Band, z: seq<int>, d: seq<int>, k: nat)
    requires BandOk(b) && |d| == |z| == 64 && b.ss <= k <= b.se
    ensures Partly(b, z, d, k)[k := AcPoint(z[k], b.al) * Pow2(b.al)] == Partly(b, z, d, k + 1)
  {
    assert AcShown(z[k], b.al) == AcPoint(z[k], b.al) * Pow2(b.al);
    hide AcShown, AcPoint, Pow2;
  }

  lemma {:induction false} FirstReachesBefore(b: Band, z: seq<int>, d: seq<int>, pre: seq<Token>, c: BlockCode, rest: seq<Token>, k0: nat, km: nat, k1: nat)
    requires BandOk(b) && |d| == |z| == 64 && FirstReaches(b, z, d, c, rest, km, k1) && b.ss <= k0 <= km
    requires FirstLoop(b, pre + (c.head + rest), k0, Partly(b, z, d, k0)) == FirstLoop(b, c.head + rest, km, Partly(b, z, d, km))
    ensures FirstReaches(b, z, d, BlockCode(pre + c.head, c.eob, c.tail), rest, k0, k1)
  {
    hide FirstLoop, Partly, AcPoint;
    Assoc3(pre, c.head, rest);
  }
}
