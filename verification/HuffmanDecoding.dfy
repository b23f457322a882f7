// Huffman decoding: the decoder's tables, and the three ways in which HUFF_DECODE finds the
// next symbol, all of which return the symbol whose code heads the bit stream.
module HuffmanDecoding {
  import opened Arith
  import opened BitStrings
  import opened HuffmanCodes
  import opened DerivedTables

  const HUFF_LOOKAHEAD: nat := 8

  datatype DTbl = DTbl(pub: HuffTbl, maxcode: seq<int>, valoffset: seq<int>, lookNbits: seq<nat>, lookSym: seq<nat>)

  /** Figure F.15: the largest code of length l, and where its symbols start. */
  predicate LengthOk(bits: seq<nat>, l: nat, maxcode: int, valoffset: int)
    requires |bits| == 17 && 1 <= l <= 16
  {
    if bits[l] == 0 then maxcode == -1
    else maxcode == First(bits, l) + bits[l] - 1 && valoffset == Start(bits, l) - First(bits, l)
  }

  ghost predicate SequentialOk(bits: seq<nat>, maxcode: seq<int>, valoffset: seq<int>)
    requires |bits| == 17
  {
    && |maxcode| == 18 && |valoffset| == 17 && maxcode[17] == 0xFFFFF
    && forall l :: 1 <= l <= 16 ==> LengthOk(bits, l, maxcode[l], valoffset[l])
  }

  /** The p-th code is at most 8 bits long and heads the 8 bits `look`. */
  ghost predicate Covers(t: HuffTbl, p: nat, look: nat)
    requires Shape(t)
  {
    && p < Total(t.bits) && LengthAt(t.bits, p) <= 8
    && CodeAt(t.bits, p) == ShiftRight(look, 8 - LengthAt(t.bits, p))
  }

  /** Below `edge` every entry names the code that heads it; from there on none is set. */
  ghost predicate LookOk(t: HuffTbl, nbits: seq<nat>, sym: seq<nat>, edge: nat)
    requires Shape(t)
  {
    && |nbits| == |sym| == 256
    && (forall look :: 0 <= look < 256 && look < edge ==> nbits[look] != 0 && Entry(t, nbits[look], sym[look], look))
    && (forall look :: edge <= look < 256 ==> nbits[look] == 0)
  }

  ghost predicate Entry(t: HuffTbl, nb: nat, s: nat, look: nat)
    requires Shape(t)
  {
    exists p :: 0 <= p < 256 && Covers(t, p, look) && nb == LengthAt(t.bits, p) && s == t.huffval[p]
  }

  /** A code of length l, left-justified in 8 bits. */
  function Left8(code: nat, l: nat): nat
    requires l <= 8
  {
    code * Pow2(8 - l)
  }

  /** Where the lookahead codes of length up to l end, in 8-bit units. */
  function Edge(bits: seq<nat>, l: nat): nat
    requires |bits| == 17 && 1 <= l <= 8
  {
    Left8(First(bits, l) + bits[l], l)
  }

  ghost predicate DTblOk(d: DTbl) {
    && Shape(d.pub) && Total(d.pub.bits) <= 256 && FitsUpTo(d.pub.bits, 16)
    && SequentialOk(d.pub.bits, d.maxcode, d.valoffset)
    && LookOk(d.pub, d.lookNbits, d.lookSym, Edge(d.pub.bits, 8))
  }

  lemma {:induction false} PlaceCode(bits: seq<nat>, p: nat, l: nat)
    requires |bits| == 17 && 1 <= l <= 16 && Start(bits, l) <= p < Start(bits, l + 1)
    ensures p < Total(bits) && LengthAt(bits, p) == l && CodeAt(bits, p) == First(bits, l) + (p - Start(bits, l))
  {
    LengthUnique(bits, p, l);
    hide First, LengthAt, Start, Total;
  }

  lemma {:induction false} CodesOfLength(bits: seq<nat>, l: nat)
    requires |bits| == 17 && 1 <= l <= 16
    ensures Start(bits, l + 1) == Start(bits, l) + bits[l] <= Total(bits)
    ensures bits[l] > 0 ==>
      CodeAt(bits, Start(bits, l)) == First(bits, l)
      && CodeAt(bits, Start(bits, l + 1) - 1) == First(bits, l) + bits[l] - 1
  {
    hide Total, First, LengthAt, CodeAt;
    AtMostTotal(bits, l + 1);
    if bits[l] > 0 {
      PlaceCode(bits, Start(bits, l), l);
      PlaceCode(bits, Start(bits, l + 1) - 1, l);
    }
  }

  lemma {:induction false} LengthDone(bits: seq<nat>, l: nat, maxcode: int, valoffset: int)
    requires |bits| == 17 && 1 <= l <= 16
    requires Start(bits, l + 1) == Start(bits, l) + bits[l] <= Total(bits)
    requires if bits[l] == 0 then maxcode == -1
             else maxcode == CodeAt(bits, Start(bits, l + 1) - 1) && valoffset == Start(bits, l) - CodeAt(bits, Start(bits, l))
    ensures LengthOk(bits, l, maxcode, valoffset)
  {
    hide Total, First, LengthAt, CodeAt;
    CodesOfLength(bits, l);
  }

  /** Figure F.15: maxcode and valoffset. */
  method FillSequential(bits: seq<nat>, huffcode: array<nat>) returns (maxcode: array<int>, valoffset: array<int>)
    requires |bits| == 17 && Total(bits) <= 256 && huffcode.Length == 257
    requires forall p :: 0 <= p < Total(bits) ==> huffcode[p] == CodeAt(bits, p)
    ensures SequentialOk(bits, maxcode[..], valoffset[..])
  {
    assert Start(bits, 1) == 0;
    hide Total, CodeAt, Start, First, LengthOk;
    maxcode, valoffset := new int[18](_ => 0), new int[17](_ => 0);
    var p, l := 0, 1;
    while l <= 16
      invariant 1 <= l <= 17 && p == Start(bits, l)
      invariant forall j :: 1 <= j < l ==> LengthOk(bits, j, maxcode[j], valoffset[j])
    {
      CodesOfLength(bits, l);
      if bits[l] != 0 {
        valoffset[l] := p - huffcode[p];
        p := p + bits[l];
        maxcode[l] := huffcode[p - 1];
      } else {
        maxcode[l] := -1;
      }
      LengthDone(bits, l, maxcode[l], valoffset[l]);
      l := l + 1;
    }
    maxcode[17] := 0xFFFFF;
  }

  /** The entries that start with the p-th code, which has length l. */
  lemma {:induction false} CodeCovers(t: HuffTbl, p: nat, l: nat, look: nat)
    requires Shape(t) && p < Total(t.bits) && p < 256 && l == LengthAt(t.bits, p) <= 8
    requires Left8(CodeAt(t.bits, p), l) <= look < Left8(CodeAt(t.bits, p) + 1, l)
    ensures Covers(t, p, look) && Entry(t, l, t.huffval[p], look)
  {
    hide CodeAt, Pow2, LengthAt;
    QuotientUnique(look, CodeAt(t.bits, p), Pow2(8 - l));
  }

  lemma {:induction false} QuotientUnique(a: nat, q: nat, d: nat)
    requires d > 0 && q * d <= a < (q + 1) * d
    ensures a / d == q
  {
    assert (q + 1) * d == q * d + d;
    DivUnique(a, d, q, a - q * d);
  }

  lemma {:induction false} EdgeInRange(bits: seq<nat>, l: nat)
    requires |bits| == 17 && FitsUpTo(bits, 16) && 1 <= l <= 8
    ensures Edge(bits, l) < 256
    ensures l > 1 ==> Left8(First(bits, l), l) == Edge(bits, l - 1)
    ensures l == 1 ==> Left8(First(bits, l), l) == 0
  {
    var x := First(bits, l) + bits[l];
    assert x < Pow2(l);
    Pow2Add(l, 8 - l);
    Pow2Values8();
    if l > 1 {
      assert Pow2(8 - (l - 1)) == 2 * Pow2(8 - l);
      Double(First(bits, l - 1) + bits[l - 1], Pow2(8 - l));
    }
    hide First, Pow2;
    ScaleLess(x, Pow2(l), Pow2(8 - l));
  }

  lemma {:induction false} Double(a: nat, p: nat)
    ensures (2 * a) * p == a * (2 * p)
  {
  }

  lemma {:induction false} Pow2Values8()
    ensures Pow2(8) == 256
  {
    assert Pow2(4) == 16;
  }

  /** One more code entered in the lookahead tables. */
  method EnterCode(t: HuffTbl, p: nat, l: nat, code: nat, nbits: array<nat>, sym: array<nat>)
    requires Shape(t) && p < Total(t.bits) && p < 256 && l == LengthAt(t.bits, p) <= 8 && code == CodeAt(t.bits, p)
    requires nbits.Length == sym.Length == 256 && nbits != sym
    requires LookOk(t, nbits[..], sym[..], Left8(code, l)) && Left8(code + 1, l) <= 256
    modifies nbits, sym
    ensures LookOk(t, nbits[..], sym[..], Left8(code + 1, l))
  {
    hide LengthAt, CodeAt, Total, Pow2, LookOk;
    var lookbits: nat, ctr: nat := code * Pow2(8 - l), Pow2(8 - l);
    ghost var edge := Left8(code + 1, l);
    assert edge == lookbits + ctr;
    while ctr > 0
      invariant ctr + lookbits == edge && lookbits >= Left8(code, l)
      invariant LookOk(t, nbits[..], sym[..], lookbits)
    {
      CodeCovers(t, p, l, lookbits);
      EntryAdded(t, nbits[..], sym[..], lookbits, l, t.huffval[p]);
      nbits[lookbits] := l;
      sym[lookbits] := t.huffval[p];
      lookbits := lookbits + 1;
      ctr := ctr - 1;
    }
  }

  lemma {:induction false} EntryAdded(t: HuffTbl, nbits: seq<nat>, sym: seq<nat>, look: nat, nb: nat, s: nat)
    requires Shape(t) && look < 256 && LookOk(t, nbits, sym, look) && nb != 0 && Entry(t, nb, s, look)
    ensures LookOk(t, nbits[look := nb], sym[look := s], look + 1)
    ensures |nbits| == |sym| == 256
  {
    hide Entry;
  }

  /** The lookahead entries of all codes of length l. */
  method FillLength(t: HuffTbl, huffcode: array<nat>, l: nat, p0: nat, nbits: array<nat>, sym: array<nat>) returns (p: nat)
    requires Shape(t) && Total(t.bits) <= 256 && FitsUpTo(t.bits, 16) && huffcode.Length == 257
    requires forall p :: 0 <= p < Total(t.bits) ==> huffcode[p] == CodeAt(t.bits, p)
    requires 1 <= l <= 8 && p0 == Start(t.bits, l) && nbits.Length == sym.Length == 256
    requires nbits != sym && huffcode != nbits && huffcode != sym
    requires LookOk(t, nbits[..], sym[..], Left8(First(t.bits, l), l))
    modifies nbits, sym
    ensures p == Start(t.bits, l + 1) && LookOk(t, nbits[..], sym[..], Edge(t.bits, l))
  {
    hide CodeAt, Total, Pow2, LookOk, Start, First, LengthAt, FitsUpTo, Left8;
    CodesOfLength(t.bits, l);
    p := p0;
    var i := 1;
    while i <= t.bits[l]
      invariant 1 <= i <= t.bits[l] + 1 && p == p0 + (i - 1)
      invariant LookOk(t, nbits[..], sym[..], Left8(First(t.bits, l) + (i - 1), l))
    {
      PlaceCode(t.bits, p, l);
      CodeBelowEdge(t.bits, l, i);
      EnterCode(t, p, l, huffcode[p], nbits, sym);
      i, p := i + 1, p + 1;
    }
  }

  /** The lookahead tables, code by code. */
  method FillLookahead(t: HuffTbl, huffcode: array<nat>) returns (nbits: array<nat>, sym: array<nat>)
    requires Shape(t) && Total(t.bits) <= 256 && FitsUpTo(t.bits, 16) && huffcode.Length == 257
    requires forall p :: 0 <= p < Total(t.bits) ==> huffcode[p] == CodeAt(t.bits, p)
    ensures LookOk(t, nbits[..], sym[..], Edge(t.bits, 8))
  {
    EdgeInRange(t.bits, 1);
    assert Start(t.bits, 1) == 0;
    hide CodeAt, Total, Pow2, LookOk, Start, First, LengthAt, FitsUpTo, Edge, Left8, Shape;
    nbits, sym := EmptyLookahead(t);
    ghost var edge := Left8(First(t.bits, 1), 1);
    var p, l := 0, 1;
    while l <= HUFF_LOOKAHEAD
      invariant 1 <= l <= 9 && p == Start(t.bits, l) && LookOk(t, nbits[..], sym[..], edge)
      invariant edge == if l == 9 then Edge(t.bits, 8) else Left8(First(t.bits, l), l)
    {
      p := FillLength(t, huffcode, l, p, nbits, sym);
      NextEdge(t.bits, l);
      edge := Edge(t.bits, l);
      l := l + 1;
    }
  }

  /** MEMZERO. */
  method EmptyLookahead(t: HuffTbl) returns (nbits: array<nat>, sym: array<nat>)
    requires Shape(t)
    ensures nbits.Length == sym.Length == 256 && nbits != sym && fresh(nbits) && fresh(sym)
    ensures LookOk(t, nbits[..], sym[..], 0)
  {
    hide Entry;
    nbits, sym := new nat[256](_ => 0), new nat[256](_ => 0);
  }

  lemma {:induction false} CodeBelowEdge(bits: seq<nat>, l: nat, i: nat)
    requires |bits| == 17 && 1 <= l <= 8 && 1 <= i <= bits[l] && FitsUpTo(bits, 16)
    ensures Left8(First(bits, l) + i, l) <= Edge(bits, l) < 256
  {
    hide First, Pow2, FitsUpTo, Left8;
    EdgeInRange(bits, l);
    Left8Mono(First(bits, l) + i, First(bits, l) + bits[l], l);
  }

  lemma {:induction false} Left8Mono(a: nat, b: nat, l: nat)
    requires a <= b && l <= 8
    ensures Left8(a, l) <= Left8(b, l)
  {
    hide Pow2;
    MulMono(a, b, Pow2(8 - l));
  }

  lemma {:induction false} BelowNext(look: nat, l: nat)
    requires l <= 8
    ensures look < Left8(ShiftRight(look, 8 - l) + 1, l)
  {
    hide Pow2, ShiftRight;
  }

  lemma {:induction false} NextEdge(bits: seq<nat>, l: nat)
    requires |bits| == 17 && 1 <= l <= 8 && FitsUpTo(bits, 16)
    ensures Left8(First(bits, l) + bits[l], l) == Edge(bits, l)
    ensures l < 8 ==> Edge(bits, l) == Left8(First(bits, l + 1), l + 1)
  {
    hide First, Pow2, FitsUpTo;
    if l < 8 {
      EdgeInRange(bits, l + 1);
    }
  }

  /** jpeg_make_d_derived_tbl: unlike the encoder it lets symbols repeat. */
  method MakeDDerived(t: HuffTbl, isDC: bool) returns (ok: bool, d: DTbl)
    requires Shape(t)
    ensures ok <==> Total(t.bits) <= 256 && Kraft(t.bits, 16) < Pow2(16) && (isDC ==> SymbolsUpTo(t, true, Total(t.bits)))
    ensures ok ==> d.pub == t && DTblOk(d)
  {
    hide LengthAt, CodeAt, Start, First, Total, Pow2, Kraft, LookOk, SequentialOk, Edge;
    FitsIffKraft(t.bits);
    d := DTbl(t, [], [], [], []);
    var huffsize, n, huffcode;
    ok, huffsize, n := MakeSizes(t);
    if !ok {
      return;
    }
    ok, huffcode := MakeCodes(t, huffsize, n);
    if !ok {
      return;
    }
    var maxcode, valoffset := FillSequential(t.bits, huffcode);
    var nbits, sym := FillLookahead(t, huffcode);
    d := DTbl(t, maxcode[..], valoffset[..], nbits[..], sym[..]);
    if isDC {
      var i := 0;
      while i < n
        invariant 0 <= i <= n && SymbolsUpTo(t, true, i)
      {
        if t.huffval[i] > 15 {
          return false, d;
        }
        i := i + 1;
      }
    }
  }

  // ----- the next symbol of a bit stream -----

  /** The p-th code heads the stream. */
  ghost predicate Heads(t: HuffTbl, p: nat, bs: seq<Bit>)
    requires Shape(t)
  {
    && p < Total(t.bits) && LengthAt(t.bits, p) <= |bs|
    && Value(bs[..LengthAt(t.bits, p)]) == CodeAt(t.bits, p)
  }

  /** At most one code heads a stream. */
  lemma {:induction false} HeadsUnique(t: HuffTbl, p: nat, q: nat, bs: seq<Bit>)
    requires Shape(t) && FitsUpTo(t.bits, 16) && Heads(t, p, bs) && Heads(t, q, bs)
    ensures p == q
  {
    hide FitsUpTo, LengthAt, CodeAt, Total, Value, ShiftRight;
    if p != q {
      var a, b := if LengthAt(t.bits, p) <= LengthAt(t.bits, q) then p else q, if LengthAt(t.bits, p) <= LengthAt(t.bits, q) then q else p;
      var l, m := LengthAt(t.bits, a), LengthAt(t.bits, b);
      ShiftedPrefix(bs[..m], l);
      assert bs[..m][..l] == bs[..l];
      PrefixFree(t.bits, a, b);
    }
  }

  lemma {:induction false} ShiftedPrefix(bs: seq<Bit>, n: nat)
    requires n <= |bs|
    ensures ShiftRight(Value(bs), |bs| - n) == Value(bs[..n])
  {
    hide Value, Pow2;
    ValuePrefix(bs, n);
  }

  datatype Decoded = Found(sym: nat, used: nat) | NeedBits

  /** The symbol whose code heads the stream; a stream that starts with no code costs 17
      bits and gives symbol 0. */
  ghost function NextSymbol(t: HuffTbl, bs: seq<Bit>): Decoded
    requires Shape(t) && Total(t.bits) <= 256
  {
    if exists p: nat :: Heads(t, p, bs) then
      var p: nat :| Heads(t, p, bs);
      Found(t.huffval[p], LengthAt(t.bits, p))
    else if |bs| >= 17 then Found(0, 17)
    else NeedBits
  }

  lemma {:induction false} NextIs(t: HuffTbl, p: nat, bs: seq<Bit>)
    requires Shape(t) && Total(t.bits) <= 256 && FitsUpTo(t.bits, 16) && Heads(t, p, bs)
    ensures NextSymbol(t, bs) == Found(t.huffval[p], LengthAt(t.bits, p))
  {
    hide Value, CodeAt, FitsUpTo, LengthAt, Total;
    var q: nat :| Heads(t, q, bs) && NextSymbol(t, bs) == Found(t.huffval[q], LengthAt(t.bits, q));
    HeadsUnique(t, p, q, bs);
  }

  /** No code shorter than l heads the stream, and its first l bits are past all of those. */
  ghost predicate Beyond(t: HuffTbl, bs: seq<Bit>, l: nat)
    requires Shape(t) && 1 <= l <= 17
  {
    && (forall p: nat :: Heads(t, p, bs) ==> LengthAt(t.bits, p) >= l)
    && (|bs| >= l ==> Value(bs[..l]) >= First(t.bits, l))
  }

  lemma {:induction false} BeyondNothing(t: HuffTbl, bs: seq<Bit>)
    requires Shape(t)
    ensures Beyond(t, bs, 1)
  {
    hide Value;
  }

  lemma {:induction false} DTblFacts(d: DTbl, l: nat)
    requires DTblOk(d) && 1 <= l <= 16
    ensures |d.maxcode| == 18 && |d.valoffset| == 17 && d.maxcode[17] == 0xFFFFF
    ensures LengthOk(d.pub.bits, l, d.maxcode[l], d.valoffset[l])
  {
    hide LookOk, LengthOk, FitsUpTo;
  }

  /** One round of Figure F.16: the code is found at length l, or is longer. */
  lemma {:induction false} SlowStep(d: DTbl, bs: seq<Bit>, l: nat)
    requires DTblOk(d) && 1 <= l <= 16 && |bs| >= l && Beyond(d.pub, bs, l)
    ensures |d.maxcode| == 18 && |d.valoffset| == 17
    ensures var code := Value(bs[..l]);
      if code <= d.maxcode[l] then
        && 0 <= code + d.valoffset[l] < 256
        && NextSymbol(d.pub, bs) == Found(d.pub.huffval[code + d.valoffset[l]], l)
      else Beyond(d.pub, bs, l + 1)
  {
    hide Value, First, Start, Total, LengthAt, NextSymbol, LookOk, SequentialOk, FitsUpTo, Heads, Beyond, Edge, CodeAt;
    var t, code := d.pub, Value(bs[..l]);
    DTblFacts(d, l);
    BeyondMeans(t, bs, l);
    CodesOfLength(t.bits, l);
    if code <= d.maxcode[l] {
      var p := code + d.valoffset[l];
      PlaceCode(t.bits, p, l);
      IsHead(t, p, bs);
      NextIs(t, p, bs);
    } else {
      BeyondNext(t, bs, l);
    }
  }

  lemma {:induction false} IsHead(t: HuffTbl, p: nat, bs: seq<Bit>)
    requires Shape(t) && p < Total(t.bits) && LengthAt(t.bits, p) <= |bs|
    requires Value(bs[..LengthAt(t.bits, p)]) == CodeAt(t.bits, p)
    ensures Heads(t, p, bs)
  {
  }

  lemma {:induction false} BeyondMeans(t: HuffTbl, bs: seq<Bit>, l: nat)
    requires Shape(t) && 1 <= l <= |bs| && l <= 17 && Beyond(t, bs, l)
    ensures Value(bs[..l]) >= First(t.bits, l)
  {
    hide Value, First;
  }

  /** Past all codes of length l as well. */
  lemma {:induction false} BeyondNext(t: HuffTbl, bs: seq<Bit>, l: nat)
    requires Shape(t) && 1 <= l <= 16 && |bs| >= l && Beyond(t, bs, l) && Value(bs[..l]) >= First(t.bits, l) + t.bits[l]
    ensures Beyond(t, bs, l + 1)
  {
    assert First(t.bits, l + 1) == 2 * (First(t.bits, l) + t.bits[l]);
    hide Value, First, LengthAt, Total, Heads;
    NoneOfLength(t, bs, l);
    if |bs| > l {
      OneMore(bs, l);
    }
  }

  lemma {:induction false} OneMore(bs: seq<Bit>, l: nat)
    requires l < |bs|
    ensures Value(bs[..l + 1]) == 2 * Value(bs[..l]) + if bs[l] then 1 else 0
  {
    assert bs[..l + 1][..l] == bs[..l];
  }

  lemma {:induction false} NoneOfLength(t: HuffTbl, bs: seq<Bit>, l: nat)
    requires Shape(t) && 1 <= l <= 16 && |bs| >= l && Value(bs[..l]) >= First(t.bits, l) + t.bits[l]
    ensures forall p: nat :: Heads(t, p, bs) ==> LengthAt(t.bits, p) != l
  {
    hide First, Value, LengthAt, Total;
    forall p: nat | Heads(t, p, bs) ensures LengthAt(t.bits, p) != l {
      if LengthAt(t.bits, p) == l {
        PlaceCode(t.bits, p, l);
      }
    }
  }

  /** The sentinel: 17 bits that start with no code. */
  lemma {:induction false} SlowGarbage(d: DTbl, bs: seq<Bit>)
    requires DTblOk(d) && |bs| >= 17 && Beyond(d.pub, bs, 17)
    ensures Value(bs[..17]) <= d.maxcode[17] && NextSymbol(d.pub, bs) == Found(0, 17)
  {
    assert Pow2(17) == 2 * 0x10000 by { Pow2Values17(); }
    assert Value(bs[..17]) < Pow2(17);
    hide Value, First, Start, LookOk, FitsUpTo;
  }

  lemma {:induction false} Pow2Values17()
    ensures Pow2(17) == 2 * 0x10000
  {
    assert Pow2(4) == 16;
    assert Pow2(8) == 256;
    assert Pow2(12) == 4096;
    assert Pow2(16) == 0x10000;
  }

  lemma {:induction false} EntryHeads(t: HuffTbl, nb: nat, s: nat, bs: seq<Bit>)
    requires Shape(t) && Total(t.bits) <= 256 && FitsUpTo(t.bits, 16) && |bs| >= 8 && Entry(t, nb, s, Value(bs[..8]))
    ensures nb <= 8 && NextSymbol(t, bs) == Found(s, nb)
  {
    hide FitsUpTo, Value, LengthAt, CodeAt, Total, NextSymbol, ShiftRight;
    var p: nat :| 0 <= p < 256 && Covers(t, p, Value(bs[..8])) && nb == LengthAt(t.bits, p) && s == t.huffval[p];
    ShiftedPrefix(bs[..8], LengthAt(t.bits, p));
    assert bs[..8][..LengthAt(t.bits, p)] == bs[..LengthAt(t.bits, p)];
    NextIs(t, p, bs);
  }

  lemma {:induction false} EightBits(bs: seq<Bit>)
    requires |bs| == 8
    ensures Value(bs) < 256
  {
    hide Value;
    Pow2Values8();
  }

  lemma {:induction false} LookFacts(d: DTbl, look: nat)
    requires DTblOk(d) && look < 256
    ensures |d.lookNbits| == |d.lookSym| == 256
    ensures if look < Edge(d.pub.bits, 8) then d.lookNbits[look] != 0 && Entry(d.pub, d.lookNbits[look], d.lookSym[look], look)
            else d.lookNbits[look] == 0
  {
    hide SequentialOk, FitsUpTo, Entry;
  }

  /** A lookahead entry is the code that heads the stream. */
  lemma {:induction false} FastHit(d: DTbl, bs: seq<Bit>)
    requires DTblOk(d) && |bs| >= 8
    ensures Value(bs[..8]) < 256 == |d.lookNbits| == |d.lookSym|
    ensures var look := Value(bs[..8]);
      d.lookNbits[look] != 0 ==>
        d.lookNbits[look] <= 8 && NextSymbol(d.pub, bs) == Found(d.lookSym[look], d.lookNbits[look])
  {
    hide FitsUpTo, SequentialOk, LookOk, Value, Total, Edge, NextSymbol, Entry;
    var look := Value(bs[..8]);
    EightBits(bs[..8]);
    LookFacts(d, look);
    if d.lookNbits[look] != 0 {
      EntryHeads(d.pub, d.lookNbits[look], d.lookSym[look], bs);
    }
  }

  /** Without a lookahead entry the code is longer than 8 bits. */
  lemma {:induction false} FastMiss(d: DTbl, bs: seq<Bit>)
    requires DTblOk(d) && |bs| >= 8 && Value(bs[..8]) < |d.lookNbits| == 256 && d.lookNbits[Value(bs[..8])] == 0
    ensures Beyond(d.pub, bs, 9)
  {
    var t, look := d.pub, Value(bs[..8]);
    hide SequentialOk, LookOk, FitsUpTo, Value, LengthAt, Total, First, Edge, Heads, Entry;
    LookFacts(d, look);
    FirstAfterEdge(t.bits);
    forall p: nat | Heads(t, p, bs) ensures LengthAt(t.bits, p) >= 9 {
      if LengthAt(t.bits, p) <= 8 {
        ShortBelowEdge(t, p, bs);
      }
    }
    if |bs| >= 9 {
      OneMore(bs, 8);
    }
  }

  lemma {:induction false} FirstAfterEdge(bits: seq<nat>)
    requires |bits| == 17
    ensures First(bits, 9) == 2 * Edge(bits, 8)
  {
    PowZero(First(bits, 8) + bits[8]);
    assert First(bits, 9) == 2 * (First(bits, 8) + bits[8]);
    hide First, Pow2;
  }

  lemma {:induction false} HeadOfEight(t: HuffTbl, p: nat, bs: seq<Bit>)
    requires Shape(t) && Heads(t, p, bs) && LengthAt(t.bits, p) <= 8 <= |bs|
    ensures ShiftRight(Value(bs[..8]), 8 - LengthAt(t.bits, p)) == CodeAt(t.bits, p)
  {
    hide Value, Total, ShiftRight, Pow2, LengthAt, CodeAt;
    var l := LengthAt(t.bits, p);
    ShiftedPrefix(bs[..8], l);
    assert bs[..8][..l] == bs[..l];
  }

  lemma {:induction false} ShortBelowEdge(t: HuffTbl, p: nat, bs: seq<Bit>)
    requires Shape(t) && FitsUpTo(t.bits, 16) && Heads(t, p, bs) && LengthAt(t.bits, p) <= 8 <= |bs|
    ensures Value(bs[..8]) < Edge(t.bits, 8)
  {
    hide Value, First, FitsUpTo, Total, ShiftRight, Pow2, LengthAt, CodeAt, Start, Left8, Heads, Edge;
    HeadOfEight(t, p, bs);
    HeadIsCode(t, p, bs);
    CodeBelowItsEdge(t.bits, p);
    BelowNext(Value(bs[..8]), LengthAt(t.bits, p));
    EdgesGrow(t.bits, LengthAt(t.bits, p), 8);
  }

  lemma {:induction false} HeadIsCode(t: HuffTbl, p: nat, bs: seq<Bit>)
    requires Shape(t) && Heads(t, p, bs)
    ensures p < Total(t.bits)
  {
    hide Value, Total, LengthAt, CodeAt;
  }

  lemma {:induction false} CodeBelowItsEdge(bits: seq<nat>, p: nat)
    requires |bits| == 17 && p < Total(bits) && LengthAt(bits, p) <= 8
    ensures Left8(CodeAt(bits, p) + 1, LengthAt(bits, p)) <= Edge(bits, LengthAt(bits, p))
  {
    hide First, Total, LengthAt, CodeAt, Left8;
    var l := LengthAt(bits, p);
    PlaceCode(bits, p, l);
    Left8Mono(CodeAt(bits, p) + 1, First(bits, l) + bits[l], l);
  }

  lemma {:induction false} EdgesGrow(bits: seq<nat>, l: nat, m: nat)
    requires |bits| == 17 && FitsUpTo(bits, 16) && 1 <= l <= m <= 8
    ensures Edge(bits, l) <= Edge(bits, m)
    decreases m
  {
    hide First, Pow2, FitsUpTo, Left8;
    if l < m {
      EdgesGrow(bits, l, m - 1);
      EdgeInRange(bits, m);
      Left8Mono(First(bits, m), First(bits, m) + bits[m], m);
    }
  }

  /** What the encoder's tables write for a symbol, the decoder reads back as that symbol,
      using up exactly its code. */
  lemma {:induction false} SymbolRoundTrip(t: HuffTbl, isDC: bool, c: CTbl, s: nat, rest: seq<Bit>)
    requires Legal(t, isDC) && Encodes(t, Total(t.bits), c.ehufco, c.ehufsi)
    requires s < 256 && c.ehufsi[s] != 0
    ensures NextSymbol(t, BitsOf(c.ehufco[s], c.ehufsi[s]) + rest) == Found(s, c.ehufsi[s])
  {
    hide LengthAt, CodeAt, Total, Value, BitsOf, Pow2, Kraft, NextSymbol, FitsUpTo;
    FitsIffKraft(t.bits);
    var p: nat :| 0 <= p < Total(t.bits) && t.huffval[p] == s;
    NotAllOnes(t.bits, p);
    var code, l := CodeAt(t.bits, p), LengthAt(t.bits, p);
    ValueOfBits(code, l);
    var bs := BitsOf(code, l) + rest;
    assert bs[..l] == BitsOf(code, l);
    IsHead(t, p, bs);
    NextIs(t, p, bs);
  }
}
