// The derived tables of the Huffman encoder and decoder as the source fills them in
// (jpeg_make_c_derived_tbl, jpeg_make_d_derived_tbl), proved against the canonical codes.
module DerivedTables {
  import opened Arith
  import opened HuffmanCodes

  /** Figure C.1: the code length of each symbol; false where the table would overrun. */
  method MakeSizes(t: HuffTbl) returns (ok: bool, huffsize: array<nat>, n: nat)
    requires Shape(t)
    ensures ok <==> Total(t.bits) <= 256
    ensures huffsize.Length == 257 && fresh(huffsize)
    ensures ok ==> n == Total(t.bits) && huffsize[n] == 0 && forall p :: 0 <= p < n ==> huffsize[p] == LengthAt(t.bits, p)
  {
    hide LengthAt;
    huffsize := new nat[257](_ => 0);
    var p, l := 0, 1;
    AtMostTotal(t.bits, 1);
    while l <= 16
      invariant 1 <= l <= 17 && p == Start(t.bits, l) <= 256 && p <= Total(t.bits)
      invariant forall q :: 0 <= q < p ==> huffsize[q] == LengthAt(t.bits, q)
    {
      var i := t.bits[l];
      AtMostTotal(t.bits, l + 1);
      if p + i > 256 {
        return false, huffsize, 0;
      }
      while i > 0
        invariant i <= t.bits[l] && p + i == Start(t.bits, l + 1) <= 256 && p + i <= Total(t.bits)
        invariant forall q :: 0 <= q < p ==> huffsize[q] == LengthAt(t.bits, q)
      {
        LengthUnique(t.bits, p, l);
        huffsize[p] := l;
        p, i := p + 1, i - 1;
      }
      l := l + 1;
    }
    huffsize[p] := 0;
    ok, n := true, p;
  }

  /** Figure C.2: the codes; false where they are not those of a legal code tree. */
  method MakeCodes(t: HuffTbl, huffsize: array<nat>, n: nat) returns (ok: bool, huffcode: array<nat>)
    requires Shape(t) && n == Total(t.bits) <= 256 && huffsize.Length == 257 && huffsize[n] == 0
    requires forall p :: 0 <= p < n ==> huffsize[p] == LengthAt(t.bits, p)
    ensures ok <==> FitsUpTo(t.bits, 16)
    ensures huffcode.Length == 257 && fresh(huffcode)
    ensures ok ==> forall p :: 0 <= p < n ==> huffcode[p] == CodeAt(t.bits, p)
  {
    hide LengthAt, First, Start, Pow2;
    huffcode := new nat[257](_ => 0);
    var code, si, p := 0, huffsize[0], 0;
    if n > 0 {
      BelowFirstLength(t.bits, si);
    }
    while huffsize[p] != 0
      invariant p <= n && si <= 17 && (n > 0 ==> 1 <= si)
      invariant n > 0 ==> p == Start(t.bits, si) && code == First(t.bits, si) && FitsUpTo(t.bits, si - 1)
      invariant forall q :: 0 <= q < p ==> huffcode[q] == CodeAt(t.bits, q)
      decreases 17 - si
    {
      assert p < n && si <= 16;
      StartMono(t.bits, si, si + 1);
      ghost var p0 := p;
      while huffsize[p] == si
        invariant p0 <= p <= n && code == First(t.bits, si) + (p - p0)
        invariant p <= Start(t.bits, si + 1)
        invariant forall q :: 0 <= q < p ==> huffcode[q] == CodeAt(t.bits, q)
        decreases n - p
      {
        assert p < n;
        assert CodeAt(t.bits, p) == code;
        huffcode[p] := code;
        p := p + 1;
        code := code + 1;
      }
      LengthEnds(t.bits, p, si);
      if code >= Pow2(si) {
        return false, huffcode;
      }
      code := code * 2;
      si := si + 1;
    }
    if n == 0 {
      NoShorter(t.bits, 17);
    } else {
      RestFits(t.bits, si - 1);
    }
    ok := true;
  }

  // ----- the encoder's tables -----

  predicate SymbolsUpTo(t: HuffTbl, isDC: bool, n: nat)
    requires Shape(t) && n <= 256
  {
    forall p :: 0 <= p < n ==> t.huffval[p] <= if isDC then 15 else 255
  }

  predicate Distinct(t: HuffTbl, n: nat)
    requires Shape(t) && n <= 256
  {
    forall p, q :: 0 <= p < q < n ==> t.huffval[p] != t.huffval[q]
  }

  /** The tables an encoder accepts: at most 256 codes, a Kraft sum below 1, and every symbol
      listed once and in range. */
  predicate Legal(t: HuffTbl, isDC: bool) {
    && Shape(t) && Total(t.bits) <= 256 && Kraft(t.bits, 16) < Pow2(16)
    && SymbolsUpTo(t, isDC, Total(t.bits)) && Distinct(t, Total(t.bits))
  }

  /** Code and length by symbol; a symbol without a code has length 0. */
  datatype CTbl = CTbl(ehufco: seq<nat>, ehufsi: seq<nat>)

  ghost predicate Encodes(t: HuffTbl, n: nat, co: seq<nat>, si: seq<nat>)
    requires Shape(t) && n <= 256 && n <= Total(t.bits)
  {
    && |co| == |si| == 256
    && (forall p :: 0 <= p < n ==> si[t.huffval[p]] == LengthAt(t.bits, p) && co[t.huffval[p]] == CodeAt(t.bits, p))
    && (forall s :: 0 <= s < 256 && si[s] != 0 ==> exists p :: 0 <= p < n && t.huffval[p] == s)
  }

  /** jpeg_make_c_derived_tbl: accepts exactly the legal tables, and then codes each listed
      symbol with the canonical code of its place. */
  method MakeCDerived(t: HuffTbl, isDC: bool) returns (ok: bool, c: CTbl)
    requires Shape(t)
    ensures ok <==> Legal(t, isDC)
    ensures ok ==> Encodes(t, Total(t.bits), c.ehufco, c.ehufsi)
  {
    hide LengthAt, CodeAt, Start, First, Total, Pow2, Kraft;
    FitsIffKraft(t.bits);
    c := CTbl([], []);
    var huffsize, huffcode, n;
    ok, huffsize, n := MakeSizes(t);
    if !ok {
      return;
    }
    ok, huffcode := MakeCodes(t, huffsize, n);
    if !ok {
      return;
    }
    ok, c := FillEncoder(t, isDC, huffsize, huffcode, n);
  }

  /** Figure C.3. */
  method FillEncoder(t: HuffTbl, isDC: bool, huffsize: array<nat>, huffcode: array<nat>, lastp: nat) returns (ok: bool, c: CTbl)
    requires Shape(t) && lastp == Total(t.bits) <= 256 && huffsize.Length == huffcode.Length == 257
    requires forall p :: 0 <= p < lastp ==> huffsize[p] == LengthAt(t.bits, p) && huffcode[p] == CodeAt(t.bits, p)
    ensures ok <==> SymbolsUpTo(t, isDC, lastp) && Distinct(t, lastp)
    ensures ok ==> Encodes(t, lastp, c.ehufco, c.ehufsi)
  {
    hide LengthAt, CodeAt, Start, First, Total;
    var co, si := new nat[256](_ => 0), new nat[256](_ => 0);
    var maxsymbol := if isDC then 15 else 255;
    c := CTbl([], []);
    var p := 0;
    while p < lastp
      invariant 0 <= p <= lastp && SymbolsUpTo(t, isDC, p) && Distinct(t, p)
      invariant Encodes(t, p, co[..], si[..])
    {
      var i := t.huffval[p];
      ghost var co0, si0 := co[..], si[..];
      if i > maxsymbol || si[i] != 0 {
        return false, c;
      }
      co[i] := huffcode[p];
      si[i] := huffsize[p];
      AddCode(t, p, co0, si0);
      assert co[..] == co0[i := CodeAt(t.bits, p)] && si[..] == si0[i := LengthAt(t.bits, p)];
      p := p + 1;
    }
    c := CTbl(co[..], si[..]);
    ok := true;
  }

  lemma {:induction false} AddCode(t: HuffTbl, p: nat, co: seq<nat>, si: seq<nat>)
    requires Shape(t) && p < 256 && p < Total(t.bits) && Encodes(t, p, co, si) && si[t.huffval[p]] == 0
    ensures var i := t.huffval[p];
      Encodes(t, p + 1, co[i := CodeAt(t.bits, p)], si[i := LengthAt(t.bits, p)])
    ensures forall q :: 0 <= q < p ==> t.huffval[q] != t.huffval[p]
  {
    hide CodeAt, Start, First, Total;
    var i := t.huffval[p];
    var si1 := si[i := LengthAt(t.bits, p)];
    forall s | 0 <= s < 256 && si1[s] != 0 ensures exists q :: 0 <= q < p + 1 && t.huffval[q] == s {
      if s == i {
        assert t.huffval[p] == s;
      } else {
        assert si[s] != 0;
      }
    }
  }

  // ----- tables known to be accepted -----

  // A table whose listed symbols are followed by zeros.
  function TableWith(bits: seq<nat>, symbols: seq<nat>): (t: HuffTbl)
    requires |symbols| <= 256
    ensures |t.huffval| == 256 && t.bits == bits
  {
    HuffTbl(bits, symbols + seq(256 - |symbols|, _ => 0))
  }

  /** The two DC tables every compressor starts with (section K.3 of ITU-T T.81) are accepted. */
  lemma {:induction false} StandardDcTables()
    ensures Legal(TableWith([0, 0, 1, 5, 1, 1, 1, 1, 1, 1, 0, 0, 0, 0, 0, 0, 0], [0, 1, 2, 3, 4, 5, 6, 7, 8, 9, 10, 11]), true)
    ensures Legal(TableWith([0, 0, 3, 1, 1, 1, 1, 1, 1, 1, 1, 1, 0, 0, 0, 0, 0], [0, 1, 2, 3, 4, 5, 6, 7, 8, 9, 10, 11]), true)
  {
    TwelveSymbols([0, 0, 1, 5, 1, 1, 1, 1, 1, 1, 0, 0, 0, 0, 0, 0, 0]);
    TwelveSymbols([0, 0, 3, 1, 1, 1, 1, 1, 1, 1, 1, 1, 0, 0, 0, 0, 0]);
    LuminanceFits();
    ChrominanceFits();
  }

  lemma {:induction false} TwelveSymbols(bits: seq<nat>)
    requires |bits| == 17
    ensures var t := TableWith(bits, [0, 1, 2, 3, 4, 5, 6, 7, 8, 9, 10, 11]);
      Shape(t) && SymbolsUpTo(t, true, 12) && Distinct(t, 12)
  {
    var symbols := [0, 1, 2, 3, 4, 5, 6, 7, 8, 9, 10, 11];
    assert forall p :: 0 <= p < 12 ==> symbols[p] == p;
  }

  lemma {:induction false} LuminanceFits()
    ensures var bits := [0, 0, 1, 5, 1, 1, 1, 1, 1, 1, 0, 0, 0, 0, 0, 0, 0]; Total(bits) == 12 && Kraft(bits, 16) < Pow2(16)
  {
    hide Start, Kraft, Pow2;
    var bits := [0, 0, 1, 5, 1, 1, 1, 1, 1, 1, 0, 0, 0, 0, 0, 0, 0];
    PowersUpTo();
    NoLength(bits);
    Longer(bits, 1);
    Longer(bits, 2);
    Longer(bits, 3);
    Longer(bits, 4);
    Longer(bits, 5);
    Longer(bits, 6);
    Longer(bits, 7);
    Longer(bits, 8);
    Longer(bits, 9);
    Longer(bits, 10);
    Longer(bits, 11);
    Longer(bits, 12);
    Longer(bits, 13);
    Longer(bits, 14);
    Longer(bits, 15);
    Longer(bits, 16);
  }

  lemma {:induction false} ChrominanceFits()
    ensures var bits := [0, 0, 3, 1, 1, 1, 1, 1, 1, 1, 1, 1, 0, 0, 0, 0, 0]; Total(bits) == 12 && Kraft(bits, 16) < Pow2(16)
  {
    hide Start, Kraft, Pow2;
    var bits := [0, 0, 3, 1, 1, 1, 1, 1, 1, 1, 1, 1, 0, 0, 0, 0, 0];
    PowersUpTo();
    NoLength(bits);
    Longer(bits, 1);
    Longer(bits, 2);
    Longer(bits, 3);
    Longer(bits, 4);
    Longer(bits, 5);
    Longer(bits, 6);
    Longer(bits, 7);
    Longer(bits, 8);
    Longer(bits, 9);
    Longer(bits, 10);
    Longer(bits, 11);
    Longer(bits, 12);
    Longer(bits, 13);
    Longer(bits, 14);
    Longer(bits, 15);
    Longer(bits, 16);
  }

  lemma {:induction false} NoLength(bits: seq<nat>)
    requires |bits| == 17
    ensures Start(bits, 1) == 0 && Kraft(bits, 0) == 0
  {
  }

  // What the codes of length l add.
  lemma {:induction false} Longer(bits: seq<nat>, l: nat)
    requires |bits| == 17 && 1 <= l <= 16
    ensures Start(bits, l + 1) == Start(bits, l) + bits[l]
    ensures Kraft(bits, l) == Kraft(bits, l - 1) + (if bits[l] == 0 then 0 else if bits[l] == 1 then Pow2(16 - l) else bits[l] * Pow2(16 - l))
  {
    hide Pow2;
  }

  lemma {:induction false} PowersUpTo()
    ensures Pow2(5) == 32 && Pow2(6) == 64 && Pow2(7) == 128 && Pow2(8) == 256 && Pow2(9) == 512 && Pow2(10) == 1024
    ensures Pow2(11) == 2048 && Pow2(12) == 4096 && Pow2(13) == 8192 && Pow2(14) == 16384 && Pow2(15) == 32768 && Pow2(16) == 65536
  {
    assert Pow2(4) == 16;
    assert Pow2(8) == 256;
    assert Pow2(12) == 4096;
  }

  /** A table with one code is accepted for AC with any symbol, and for DC with any up to 15. */
  lemma {:induction false} OneCode(s: nat, isDC: bool)
    requires s < 256
    ensures Legal(TableWith([0, 1, 0, 0, 0, 0, 0, 0, 0, 0, 0, 0, 0, 0, 0, 0, 0], [s]), isDC) <==> !isDC || s <= 15
  {
    OneFits();
    hide Start, Kraft, Pow2;
    assert TableWith([0, 1, 0, 0, 0, 0, 0, 0, 0, 0, 0, 0, 0, 0, 0, 0, 0], [s]).huffval[0] == s;
  }

  lemma {:induction false} OneFits()
    ensures var bits := [0, 1, 0, 0, 0, 0, 0, 0, 0, 0, 0, 0, 0, 0, 0, 0, 0]; Total(bits) == 1 && Kraft(bits, 16) < Pow2(16)
  {
    hide Start, Kraft, Pow2;
    var bits := [0, 1, 0, 0, 0, 0, 0, 0, 0, 0, 0, 0, 0, 0, 0, 0, 0];
    PowersUpTo();
    NoLength(bits);
    Longer(bits, 1);
    Longer(bits, 2);
    Longer(bits, 3);
    Longer(bits, 4);
    Longer(bits, 5);
    Longer(bits, 6);
    Longer(bits, 7);
    Longer(bits, 8);
    Longer(bits, 9);
    Longer(bits, 10);
    Longer(bits, 11);
    Longer(bits, 12);
    Longer(bits, 13);
    Longer(bits, 14);
    Longer(bits, 15);
    Longer(bits, 16);
  }
}
