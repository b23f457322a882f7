// Sequential Huffman coding (sections F.1.2 and F.2.2 of ITU-T T.81) from coefficient blocks
// to bytes: what an encoder puts out for a scan, what a decoder makes of the bits, and why
// the decoder gets every block back without ever needing a bit that was not sent.
module SequentialScan {
  import opened Arith
  import opened BitStrings
  import opened Coefficients
  import opened Tokens
  import opened AcRefine
  import opened AcFirst
  import opened HuffmanCodes
  import opened DerivedTables
  import opened HuffmanDecoding
  import D = DcScan

  // ----- what the encoder emits -----

  /** One block of an MCU: its scan component, DC and AC table numbers and coefficients. */
  datatype Unit = Unit(ci: nat, dc: nat, ac: nat, z: seq<int>)

  function AcBand(ac: nat): (b: Band)
    ensures BandOk(b)
  {
    Band(1, 63, 0, 0, Ac(ac))
  }

  /** The AC symbols of a block from position k on, r zeros pending, with the final EOB. */
  function AcTokens(ac: nat, z: seq<int>, k: nat, r: nat): seq<Token>
    requires |z| == 64
  {
    var c := FirstCode(AcBand(ac), z, k, r);
    c.head + if c.eob then [Sym(Ac(ac), 0)] else []
  }

  /** encode_one_block, as symbols and bits. */
  function BlockTokens(u: Unit, last: int): seq<Token>
    requires |u.z| == 64
  {
    D.DiffTokens(Dc(u.dc), u.z[0] - last) + AcTokens(u.ac, u.z, 1, 0)
  }

  /** The range checks of encode_one_block. */
  predicate BlockInRange(u: Unit, last: int)
    requires |u.z| == 64
  {
    && NBits(Abs(u.z[0] - last)) <= MAX_COEF_BITS + 1
    && forall k :: 1 <= k <= 63 ==> NBits(Abs(u.z[k])) <= MAX_COEF_BITS
  }

  /** Huffman tables as given, and as derived for encoding. */
  datatype Tables = Tables(dc: seq<HuffTbl>, ac: seq<HuffTbl>, dcc: seq<CTbl>, acc: seq<CTbl>)

  ghost predicate TableOk(t: HuffTbl, isDC: bool, c: CTbl) {
    Legal(t, isDC) && Encodes(t, Total(t.bits), c.ehufco, c.ehufsi)
  }

  ghost predicate TablesOk(x: Tables) {
    && |x.dc| == |x.dcc| && |x.ac| == |x.acc|
    && (forall i :: 0 <= i < |x.dc| ==> TableOk(x.dc[i], true, x.dcc[i]))
    && (forall i :: 0 <= i < |x.ac| ==> TableOk(x.ac[i], false, x.acc[i]))
  }

  /** All that decoding needs of a table: a legal code; symbols may repeat. */
  ghost predicate TblOk(t: HuffTbl) {
    Shape(t) && Total(t.bits) <= 256 && FitsUpTo(t.bits, 16)
  }

  ghost predicate Readable(x: Tables) {
    && (forall i :: 0 <= i < |x.dc| ==> TblOk(x.dc[i]))
    && (forall i :: 0 <= i < |x.ac| ==> TblOk(x.ac[i]))
  }

  lemma {:induction false} TablesReadable(x: Tables)
    requires TablesOk(x)
    ensures Readable(x)
  {
    hide Total, Kraft, Encodes, FitsUpTo;
    forall i: nat | i < |x.dc| ensures TblOk(x.dc[i]) {
      assert TableOk(x.dc[i], true, x.dcc[i]);
      FitsIffKraft(x.dc[i].bits);
    }
    forall i: nat | i < |x.ac| ensures TblOk(x.ac[i]) {
      assert TableOk(x.ac[i], false, x.acc[i]);
      FitsIffKraft(x.ac[i].bits);
    }
  }

  /** The derived encoder table a symbol is looked up in. */
  function TableOf(x: Tables, tbl: Table): CTbl {
    match tbl
    case Dc(no) => if no < |x.dcc| then x.dcc[no] else CTbl([], [])
    case Ac(no) => if no < |x.acc| then x.acc[no] else CTbl([], [])
  }

  /** A token that can be written: a symbol with a code, or bits that fit their size. */
  predicate Writable(x: Tables, t: Token) {
    match t
    case Sym(tbl, s) =>
      var c := TableOf(x, tbl);
      s < |c.ehufsi| && s < |c.ehufco| && c.ehufsi[s] != 0
    case Bits(v, n) => v < Pow2(n)
    case Rst(_) => false
  }

  function TokenBits(x: Tables, t: Token): seq<Bit> {
    match t
    case Sym(tbl, s) =>
      var c := TableOf(x, tbl);
      if s < |c.ehufsi| && s < |c.ehufco| then BitsOf(c.ehufco[s], c.ehufsi[s]) else []
    case Bits(v, n) => BitsOf(v, n)
    case Rst(_) => []
  }

  function AllBits(x: Tables, ts: seq<Token>): seq<Bit> {
    if ts == [] then [] else TokenBits(x, ts[0]) + AllBits(x, ts[1..])
  }

  lemma {:induction false} AllBitsConcat(x: Tables, a: seq<Token>, b: seq<Token>)
    ensures AllBits(x, a + b) == AllBits(x, a) + AllBits(x, b)
    decreases |a|
  {
    hide TokenBits;
    if a == [] {
      assert a + b == b;
    } else {
      AllBitsConcat(x, a[1..], b);
      assert (a + b)[1..] == a[1..] + b;
    }
  }

  predicate AllWritable(x: Tables, ts: seq<Token>) {
    forall i :: 0 <= i < |ts| ==> Writable(x, ts[i])
  }

  // ----- what the decoder reads -----

  datatype Read = Taken(v: nat, rest: seq<Bit>) | Short

  ghost function TakeSymbol(t: HuffTbl, bs: seq<Bit>): (r: Read)
    requires Shape(t) && Total(t.bits) <= 256
    ensures r.Taken? ==> |r.rest| < |bs|
  {
    match NextSymbol(t, bs)
    case Found(s, used) => if 0 < used <= |bs| then Taken(s, bs[used..]) else Short
    case NeedBits => Short
  }

  function TakeBits(bs: seq<Bit>, n: nat): (r: Read)
    ensures r.Taken? ==> |r.rest| <= |bs|
  {
    if n <= |bs| then Taken(Value(bs[..n]), bs[n..]) else Short
  }

  datatype DiffRead = DiffGot(diff: int, rest: seq<Bit>) | DiffShort

  ghost function TakeDiff(t: HuffTbl, bs: seq<Bit>): (o: DiffRead)
    requires Shape(t) && Total(t.bits) <= 256
    ensures o.DiffGot? ==> |o.rest| <= |bs|
  {
    match TakeSymbol(t, bs)
    case Short => DiffShort
    case Taken(s, bs1) =>
      if s == 0 then DiffGot(0, bs1)
      else match TakeBits(bs1, s)
        case Short => DiffShort
        case Taken(v, bs2) => DiffGot(HuffExtend(v, s), bs2)
  }

  datatype AcOut = AcDone(rest: seq<Bit>, d: seq<int>) | AcShort(d: seq<int>)

  /** The AC loop of decode_mcu, from position k. */
  ghost function AcLoop(t: HuffTbl, bs: seq<Bit>, k: nat, d: seq<int>): (o: AcOut)
    requires Shape(t) && Total(t.bits) <= 256 && |d| == 64
    ensures |o.d| == 64 && (o.AcDone? ==> |o.rest| <= |bs|)
    decreases |bs|
  {
    if k > 63 then AcDone(bs, d)
    else match TakeSymbol(t, bs)
      case Short => AcShort(d)
      case Taken(s, bs1) =>
        var r, n := s / 16, s % 16;
        if n != 0 then
          match TakeBits(bs1, n)
          case Short => AcShort(d)
          case Taken(v, bs2) => AcLoop(t, bs2, k + r + 1, d[Clamp(k + r) := HuffExtend(v, n)])
        else if r != 15 then AcDone(bs1, d)
        else AcLoop(t, bs1, k + 16, d)
  }

  datatype UnitOut = UnitDone(rest: seq<Bit>, dc: int, d: seq<int>) | UnitShort(d: seq<int>)

  /** One block of decode_mcu on a block d. */
  ghost function DecodeBlock(dc: HuffTbl, ac: HuffTbl, bs: seq<Bit>, last: int, d: seq<int>): (o: UnitOut)
    requires Shape(dc) && Total(dc.bits) <= 256 && Shape(ac) && Total(ac.bits) <= 256 && |d| == 64
    ensures |o.d| == 64 && (o.UnitDone? ==> |o.rest| <= |bs|)
  {
    match TakeDiff(dc, bs)
    case DiffShort => UnitShort(d)
    case DiffGot(diff, bs1) =>
      var s := diff + last;
      match AcLoop(ac, bs1, 1, d[0 := s])
      case AcDone(bs2, d2) => UnitDone(bs2, s, d2)
      case AcShort(d2) => UnitShort(d2)
  }

  // ----- one block there and back -----

  lemma {:induction false} TableShape(x: Tables, isDC: bool, no: nat)
    requires TablesOk(x) && (if isDC then no < |x.dc| else no < |x.ac|)
    ensures var t := if isDC then x.dc[no] else x.ac[no]; Shape(t) && Total(t.bits) <= 256
  {
    assert TableOk(if isDC then x.dc[no] else x.ac[no], isDC, if isDC then x.dcc[no] else x.acc[no]);
    hide Total, Kraft, Encodes;
  }

  lemma {:induction false} SymbolTaken(x: Tables, isDC: bool, no: nat, s: nat, rest: seq<Bit>)
    requires TablesOk(x) && (if isDC then no < |x.dc| else no < |x.ac|)
    requires Writable(x, Sym(if isDC then Dc(no) else Ac(no), s))
    ensures var t := if isDC then x.dc[no] else x.ac[no];
      && Shape(t) && Total(t.bits) <= 256
      && TakeSymbol(t, TokenBits(x, Sym(if isDC then Dc(no) else Ac(no), s)) + rest) == Taken(s, rest)
  {
    var t, c := if isDC then x.dc[no] else x.ac[no], if isDC then x.dcc[no] else x.acc[no];
    assert TableOk(t, isDC, c);
    hide Kraft, Total, NextSymbol, BitsOf, LengthAt, CodeAt;
    SymbolRoundTrip(t, isDC, c, s, rest);
    assert (BitsOf(c.ehufco[s], c.ehufsi[s]) + rest)[c.ehufsi[s]..] == rest;
  }

  lemma {:induction false} BitsTaken(v: nat, n: nat, rest: seq<Bit>)
    requires v < Pow2(n)
    ensures TakeBits(BitsOf(v, n) + rest, n) == Taken(v, rest)
  {
    hide BitsOf, Value, Pow2;
    ValueOfBits(v, n);
    assert (BitsOf(v, n) + rest)[..n] == BitsOf(v, n);
    assert (BitsOf(v, n) + rest)[n..] == rest;
  }

  lemma {:induction false} TwoTokens(x: Tables, a: Token, b: Token)
    ensures AllBits(x, [a, b]) == TokenBits(x, a) + TokenBits(x, b)
  {
    hide TokenBits;
    assert [a, b][1..] == [b] && [b][1..] == [];
    assert AllBits(x, [b]) == TokenBits(x, b) + [] == TokenBits(x, b);
  }

  lemma {:induction false} OneToken(x: Tables, a: Token)
    ensures AllBits(x, [a]) == TokenBits(x, a)
  {
    hide TokenBits;
    assert [a][1..] == [];
    assert AllBits(x, [a]) == TokenBits(x, a) + [];
  }

  lemma {:induction false} DiffTaken(x: Tables, no: nat, diff: int, rest: seq<Bit>)
    requires TablesOk(x) && no < |x.dc| && AllWritable(x, D.DiffTokens(Dc(no), diff))
    ensures var t := x.dc[no];
      Shape(t) && Total(t.bits) <= 256 && TakeDiff(t, AllBits(x, D.DiffTokens(Dc(no), diff)) + rest) == DiffGot(diff, rest)
  {
    hide Total, TakeSymbol, TakeBits, TokenBits, Writable, HuffExtend, NBits, Pow2, TablesOk;
    var n := NBits(Abs(diff));
    var ts := D.DiffTokens(Dc(no), diff);
    assert Writable(x, ts[0]);
    if diff == 0 {
      NoBits();
      assert ts == [Sym(Dc(no), 0)];
      OneToken(x, ts[0]);
      SymbolTaken(x, true, no, 0, rest);
    } else {
      MagnitudeRoundTrip(diff);
      var v := MagnitudeBits(diff, n);
      assert ts == [Sym(Dc(no), n), Bits(v, n)];
      TwoTokens(x, ts[0], ts[1]);
      SymbolTaken(x, true, no, n, TokenBits(x, ts[1]) + rest);
      assert (TokenBits(x, ts[0]) + TokenBits(x, ts[1])) + rest == TokenBits(x, ts[0]) + (TokenBits(x, ts[1]) + rest);
      RawTaken(x, v, n, rest);
    }
  }

  lemma {:induction false} NoBits()
    ensures NBits(Abs(0)) == 0
  {
  }

  lemma {:induction false} RawTaken(x: Tables, v: nat, n: nat, rest: seq<Bit>)
    requires v < Pow2(n)
    ensures TakeBits(TokenBits(x, Bits(v, n)) + rest, n) == Taken(v, rest)
  {
    hide Pow2, TakeBits;
    BitsTaken(v, n, rest);
  }

  /** The decoder's block when every coefficient below position k has been read. */
  function Upto(z: seq<int>, k: nat): (d: seq<int>)
    requires |z| == 64
    ensures |d| == 64
  {
    seq(64, i requires 0 <= i < 64 => if i < k then z[i] else 0)
  }

  lemma {:induction false} UptoStep(z: seq<int>, k: nat)
    requires |z| == 64 && k < 64
    ensures Upto(z, k)[k := z[k]] == Upto(z, k + 1)
    ensures z[k] == 0 ==> Upto(z, k) == Upto(z, k + 1)
  {
  }

  /** One round of the AC loop on a ZRL, on an EOB, and on a value. */
  lemma {:induction false} RoundZrl(t: HuffTbl, bs: seq<Bit>, k: nat, d: seq<int>, bs1: seq<Bit>)
    requires Shape(t) && Total(t.bits) <= 256 && |d| == 64 && k <= 63 && TakeSymbol(t, bs) == Taken(ZRL, bs1)
    ensures AcLoop(t, bs, k, d) == AcLoop(t, bs1, k + 16, d)
  {
    hide Total, Shape, TakeSymbol, TakeBits, HuffExtend;
    assert ZRL / 16 == 15 && ZRL % 16 == 0;
  }

  lemma {:induction false} RoundEob(t: HuffTbl, bs: seq<Bit>, k: nat, d: seq<int>, bs1: seq<Bit>)
    requires Shape(t) && Total(t.bits) <= 256 && |d| == 64 && k <= 63 && TakeSymbol(t, bs) == Taken(0, bs1)
    ensures AcLoop(t, bs, k, d) == AcDone(bs1, d)
  {
    hide Total, Shape, TakeSymbol, TakeBits, HuffExtend;
  }

  lemma {:induction false} RoundValue(t: HuffTbl, bs: seq<Bit>, k: nat, d: seq<int>, r: nat, n: nat, bs1: seq<Bit>, v: nat, bs2: seq<Bit>)
    requires Shape(t) && Total(t.bits) <= 256 && |d| == 64 && k + r <= 63 && 1 <= n <= 15
    requires TakeSymbol(t, bs) == Taken(r * 16 + n, bs1) && TakeBits(bs1, n) == Taken(v, bs2)
    ensures AcLoop(t, bs, k, d) == AcLoop(t, bs2, k + r + 1, d[k + r := HuffExtend(v, n)])
  {
    hide Total, Shape, TakeSymbol, TakeBits, HuffExtend;
    assert (r * 16 + n) / 16 == r && (r * 16 + n) % 16 == n;
  }

  lemma {:induction false} AllBitsFront(x: Tables, ts: seq<Token>, rest: seq<Bit>)
    requires ts != []
    ensures AllBits(x, ts) + rest == TokenBits(x, ts[0]) + (AllBits(x, ts[1..]) + rest)
  {
    hide TokenBits;
    assert (TokenBits(x, ts[0]) + AllBits(x, ts[1..])) + rest == TokenBits(x, ts[0]) + (AllBits(x, ts[1..]) + rest);
  }

  lemma {:induction false} ZrlsHead(ac: nat, n: nat)
    requires n > 0
    ensures |Zrls(Ac(ac), n)| == n && Zrls(Ac(ac), n)[0] == Sym(Ac(ac), ZRL) && Zrls(Ac(ac), n)[1..] == Zrls(Ac(ac), n - 1)
  {
  }

  lemma {:induction false} ZrlTaken(x: Tables, ac: nat, ts: seq<Token>, k: nat, d: seq<int>, rest: seq<Bit>)
    requires TablesOk(x) && ac < |x.ac| && |d| == 64 && k <= 63
    requires ts != [] && ts[0] == Sym(Ac(ac), ZRL) && Writable(x, ts[0])
    ensures Shape(x.ac[ac]) && Total(x.ac[ac].bits) <= 256
    ensures AcLoop(x.ac[ac], AllBits(x, ts) + rest, k, d) == AcLoop(x.ac[ac], AllBits(x, ts[1..]) + rest, k + 16, d)
  {
    hide Total, TakeSymbol, TokenBits, Writable, TablesOk, TableOk, AcLoop, Shape, AllBits;
    TableShape(x, false, ac);
    var later := AllBits(x, ts[1..]) + rest;
    AllBitsFront(x, ts, rest);
    SymbolTaken(x, false, ac, ZRL, later);
    RoundZrl(x.ac[ac], TokenBits(x, ts[0]) + later, k, d, later);
  }

  /** n ZRL symbols move the decoder 16 n positions on. */
  lemma {:induction false} ZrlsTaken(x: Tables, ac: nat, n: nat, k: nat, d: seq<int>, rest: seq<Bit>)
    requires TablesOk(x) && ac < |x.ac| && |d| == 64 && k + 16 * n <= 63
    requires n > 0 ==> Writable(x, Sym(Ac(ac), ZRL))
    ensures Shape(x.ac[ac]) && Total(x.ac[ac].bits) <= 256
    ensures AcLoop(x.ac[ac], AllBits(x, Zrls(Ac(ac), n)) + rest, k, d) == AcLoop(x.ac[ac], rest, k + 16 * n, d)
    decreases n
  {
    hide Total, Writable, TablesOk, AcLoop, Shape, AllBits, Zrls;
    TableShape(x, false, ac);
    ZrlsNone(x, ac, rest);
    if n > 0 {
      ZrlsHead(ac, n);
      ZrlTaken(x, ac, Zrls(Ac(ac), n), k, d, rest);
      ZrlsTaken(x, ac, n - 1, k + 16, d, rest);
    }
  }

  lemma {:induction false} ZrlsNone(x: Tables, ac: nat, rest: seq<Bit>)
    ensures AllBits(x, Zrls(Ac(ac), 0)) + rest == rest
  {
    assert [] + rest == rest;
  }

  lemma {:induction false} NBitsPositive(v: int)
    requires v != 0
    ensures NBits(Abs(v)) >= 1
  {
    NBitsRange(Abs(v));
  }

  /** A run-length symbol and its value bits set one coefficient. */
  lemma {:induction false} ValueTaken(x: Tables, ac: nat, r: nat, v: int, k: nat, d: seq<int>, rest: seq<Bit>)
    requires TablesOk(x) && ac < |x.ac| && |d| == 64 && k + r <= 63 && r <= 15 && v != 0 && NBits(Abs(v)) <= MAX_COEF_BITS
    requires Writable(x, Sym(Ac(ac), r * 16 + NBits(Abs(v))))
    ensures Shape(x.ac[ac]) && Total(x.ac[ac].bits) <= 256
    ensures AcLoop(x.ac[ac], AllBits(x, ValueTokens(Ac(ac), r, v)) + rest, k, d)
         == AcLoop(x.ac[ac], rest, k + r + 1, d[k + r := v])
  {
    TableShape(x, false, ac);
    hide Total, TakeSymbol, TakeBits, TokenBits, Writable, TablesOk, TableOk, HuffExtend, NBits, Pow2, AcLoop, Shape, MagnitudeBits, AllBits;
    var n := NBits(Abs(v));
    MagnitudeRoundTrip(v);
    var ts, m := ValueTokens(Ac(ac), r, v), MagnitudeBits(v, n);
    assert ts == [Sym(Ac(ac), r * 16 + n), Bits(m, n)];
    TwoTokens(x, ts[0], ts[1]);
    var later := TokenBits(x, ts[1]) + rest;
    assert AllBits(x, ts) + rest == TokenBits(x, ts[0]) + later;
    SymbolTaken(x, false, ac, r * 16 + n, later);
    RawTaken(x, m, n, rest);
    NBitsPositive(v);
    RoundValue(x.ac[ac], TokenBits(x, ts[0]) + later, k, d, r, n, later, m, rest);
  }

  lemma {:induction false} AcTokensStep(ac: nat, z: seq<int>, k: nat, r: nat)
    requires |z| == 64 && k <= 63
    ensures AcTokens(ac, z, k, r) ==
      if z[k] == 0 then AcTokens(ac, z, k + 1, r + 1)
      else Zrls(Ac(ac), r / 16) + (ValueTokens(Ac(ac), r % 16, z[k]) + AcTokens(ac, z, k + 1, 0))
  {
    ShownExact(z[k]);
    assert AcPoint(z[k], 0) == z[k] by {
      assert Pow2(0) == 1;
    }
    hide AcPoint, NBits, ValueTokens;
    if z[k] != 0 {
      var c := FirstCode(AcBand(ac), z, k + 1, 0);
      var a, b, e := Zrls(Ac(ac), r / 16), ValueTokens(Ac(ac), r % 16, z[k]), if c.eob then [Sym(Ac(ac), 0)] else [];
      assert ((a + b) + c.head) + e == a + (b + (c.head + e));
    }
  }

  lemma {:induction false} AcTokensEnd(ac: nat, z: seq<int>, r: nat)
    requires |z| == 64
    ensures AcTokens(ac, z, 64, r) == if r > 0 then [Sym(Ac(ac), 0)] else []
  {
  }

  lemma {:induction false} HeadsWritable(x: Tables, ac: nat, n: nat, r: nat, v: int)
    requires AllWritable(x, Zrls(Ac(ac), n)) && AllWritable(x, ValueTokens(Ac(ac), r, v))
    ensures n > 0 ==> Writable(x, Sym(Ac(ac), ZRL))
    ensures Writable(x, Sym(Ac(ac), r * 16 + NBits(Abs(v))))
  {
    hide Writable, NBits, MagnitudeBits;
    assert n > 0 ==> Zrls(Ac(ac), n)[0] == Sym(Ac(ac), ZRL);
    assert ValueTokens(Ac(ac), r, v)[0] == Sym(Ac(ac), r * 16 + NBits(Abs(v)));
  }

  /** The step of AcTaken for a nonzero coefficient at k. */
  lemma {:induction false} NonzeroTaken(x: Tables, ac: nat, z: seq<int>, k: nat, r: nat, rest: seq<Bit>)
    requires TablesOk(x) && ac < |x.ac| && |z| == 64 && 1 <= k - r && k <= 63
    requires z[k] != 0 && NBits(Abs(z[k])) <= MAX_COEF_BITS && AllWritable(x, AcTokens(ac, z, k, r))
    ensures Shape(x.ac[ac]) && Total(x.ac[ac].bits) <= 256 && AllWritable(x, AcTokens(ac, z, k + 1, 0))
    ensures AcLoop(x.ac[ac], AllBits(x, AcTokens(ac, z, k, r)) + rest, k - r, Upto(z, k))
         == AcLoop(x.ac[ac], AllBits(x, AcTokens(ac, z, k + 1, 0)) + rest, k + 1, Upto(z, k + 1))
  {
    hide Total, TokenBits, Writable, TablesOk, NBits, AcLoop, Zrls, ValueTokens, AcTokens, AllBits, Shape, Upto;
    TableShape(x, false, ac);
    AcTokensStep(ac, z, k, r);
    UptoStep(z, k);
    var a, b, c := Zrls(Ac(ac), r / 16), ValueTokens(Ac(ac), r % 16, z[k]), AcTokens(ac, z, k + 1, 0);
    WritableParts(x, a, b, c);
    HeadsWritable(x, ac, r / 16, r % 16, z[k]);
    ThreeParts(x, a, b, c, rest);
    ZrlsTaken(x, ac, r / 16, k - r, Upto(z, k), AllBits(x, b) + (AllBits(x, c) + rest));
    ValueTaken(x, ac, r % 16, z[k], k - r % 16, Upto(z, k), AllBits(x, c) + rest);
  }

  /** The AC coefficients of a block come back from their symbols. */
  lemma {:induction false} AcTaken(x: Tables, ac: nat, z: seq<int>, k: nat, r: nat, rest: seq<Bit>)
    requires TablesOk(x) && ac < |x.ac| && |z| == 64 && 1 <= k - r && k <= 64
    requires forall i :: k <= i <= 63 ==> NBits(Abs(z[i])) <= MAX_COEF_BITS
    requires AllWritable(x, AcTokens(ac, z, k, r))
    ensures Shape(x.ac[ac]) && Total(x.ac[ac].bits) <= 256
    ensures AcLoop(x.ac[ac], AllBits(x, AcTokens(ac, z, k, r)) + rest, k - r, Upto(z, k)) == AcDone(rest, z)
    decreases 64 - k
  {
    hide Total, TokenBits, Writable, TablesOk, NBits, AcLoop, AllBits, AcTokens, Shape, Upto;
    if k == 64 {
      AcTokensEnd(ac, z, r);
      UptoEnd(z);
      assert r > 0 ==> AcTokens(ac, z, k, r)[0] == Sym(Ac(ac), 0);
      EobTaken(x, ac, r, rest, z);
    } else if z[k] == 0 {
      AcTokensStep(ac, z, k, r);
      UptoStep(z, k);
      AcTaken(x, ac, z, k + 1, r + 1, rest);
    } else {
      NonzeroTaken(x, ac, z, k, r, rest);
      AcTaken(x, ac, z, k + 1, 0, rest);
    }
  }

  lemma {:induction false} UptoEnd(z: seq<int>)
    requires |z| == 64
    ensures Upto(z, 64) == z
  {
  }

  lemma {:induction false} WritableParts(x: Tables, a: seq<Token>, b: seq<Token>, c: seq<Token>)
    requires AllWritable(x, a + (b + c))
    ensures AllWritable(x, a) && AllWritable(x, b) && AllWritable(x, c)
  {
    hide Writable;
    var ts := a + (b + c);
    forall i | 0 <= i < |a| ensures Writable(x, a[i]) {
      assert ts[i] == a[i];
    }
    forall i | 0 <= i < |b| ensures Writable(x, b[i]) {
      assert ts[|a| + i] == b[i];
    }
    forall i | 0 <= i < |c| ensures Writable(x, c[i]) {
      assert ts[|a| + |b| + i] == c[i];
    }
  }

  lemma {:induction false} ThreeParts(x: Tables, a: seq<Token>, b: seq<Token>, c: seq<Token>, rest: seq<Bit>)
    ensures AllBits(x, a + (b + c)) + rest == AllBits(x, a) + (AllBits(x, b) + (AllBits(x, c) + rest))
  {
    AllBitsConcat(x, a, b + c);
    AllBitsConcat(x, b, c);
    hide AllBits;
  }

  lemma {:induction false} EobTaken(x: Tables, ac: nat, r: nat, rest: seq<Bit>, z: seq<int>)
    requires TablesOk(x) && ac < |x.ac| && |z| == 64 && r <= 63
    requires r > 0 ==> Writable(x, Sym(Ac(ac), 0))
    ensures Shape(x.ac[ac]) && Total(x.ac[ac].bits) <= 256
    ensures AcLoop(x.ac[ac], AllBits(x, if r > 0 then [Sym(Ac(ac), 0)] else []) + rest, 64 - r, z) == AcDone(rest, z)
  {
    TableShape(x, false, ac);
    hide Total, TakeSymbol, TokenBits, Writable, TablesOk, TableOk, Shape;
    if r > 0 {
      OneToken(x, Sym(Ac(ac), 0));
      SymbolTaken(x, false, ac, 0, rest);
      RoundEob(x.ac[ac], TokenBits(x, Sym(Ac(ac), 0)) + rest, 64 - r, z, rest);
    } else {
      assert [] + rest == rest;
    }
  }

  /** One block decodes to itself from a zeroed block. */
  lemma {:induction false} UnitTaken(x: Tables, u: Unit, last: int, rest: seq<Bit>)
    requires TablesOk(x) && u.dc < |x.dc| && u.ac < |x.ac| && |u.z| == 64
    requires BlockInRange(u, last) && AllWritable(x, BlockTokens(u, last))
    ensures Shape(x.dc[u.dc]) && Total(x.dc[u.dc].bits) <= 256 && Shape(x.ac[u.ac]) && Total(x.ac[u.ac].bits) <= 256
    ensures DecodeBlock(x.dc[u.dc], x.ac[u.ac], AllBits(x, BlockTokens(u, last)) + rest, last, Upto(u.z, 0))
         == UnitDone(rest, u.z[0], u.z)
  {
    hide Total, TakeDiff, AcLoop, TokenBits, Writable, TablesOk, NBits, AllBits, AcTokens, D.DiffTokens;
    var diff := u.z[0] - last;
    var a, b := D.DiffTokens(Dc(u.dc), diff), AcTokens(u.ac, u.z, 1, 0);
    TwoWritable(x, a, b);
    AllBitsConcat(x, a, b);
    assert (AllBits(x, a) + AllBits(x, b)) + rest == AllBits(x, a) + (AllBits(x, b) + rest);
    DiffTaken(x, u.dc, diff, AllBits(x, b) + rest);
    assert Upto(u.z, 0)[0 := u.z[0]] == Upto(u.z, 1);
    AcTaken(x, u.ac, u.z, 1, 0, rest);
  }

  lemma {:induction false} TwoWritable(x: Tables, a: seq<Token>, b: seq<Token>)
    requires AllWritable(x, a + b)
    ensures AllWritable(x, a) && AllWritable(x, b)
  {
    assert a + ([] + b) == a + b;
    WritableParts(x, a, [], b);
    hide Writable;
  }

  // ----- one MCU -----

  /** A block as stored, with its scan component and table numbers. */
  datatype Ref = Ref(ci: nat, dc: nat, ac: nat, block: array<int>)

  ghost predicate RefsFit(x: Tables, comps: nat, refs: seq<Ref>, order: seq<nat>) {
    IsZigzag(order) && forall i :: 0 <= i < |refs| ==>
      refs[i].ci < comps && refs[i].dc < |x.dc| && refs[i].ac < |x.ac| && refs[i].block.Length == 64
  }

  /** One block of an MCU as the decoder finds it. */
  datatype Slot = Slot(ci: nat, dc: nat, ac: nat, d: seq<int>)

  ghost predicate UnitOk(x: Tables, comps: nat, u: Unit) {
    u.ci < comps && u.dc < |x.dc| && u.ac < |x.ac| && |u.z| == 64
  }

  ghost predicate McuOk(x: Tables, comps: nat, mcu: seq<Unit>) {
    forall i :: 0 <= i < |mcu| ==> UnitOk(x, comps, mcu[i])
  }

  ghost predicate SlotOk(x: Tables, comps: nat, s: Slot) {
    s.ci < comps && s.dc < |x.dc| && s.ac < |x.ac| && |s.d| == 64
  }

  ghost predicate SlotsOk(x: Tables, comps: nat, mcu: seq<Slot>) {
    forall i :: 0 <= i < |mcu| ==> SlotOk(x, comps, mcu[i])
  }

  ghost function McuTokens(x: Tables, pred: seq<int>, mcu: seq<Unit>): seq<Token>
    requires McuOk(x, |pred|, mcu)
    decreases |mcu|
  {
    if mcu == [] then []
    else
      assert UnitOk(x, |pred|, mcu[0]);
      BlockTokens(mcu[0], pred[mcu[0].ci]) + McuTokens(x, pred[mcu[0].ci := mcu[0].z[0]], mcu[1..])
  }

  /** last_dc_val after an MCU. */
  ghost function PredAfter(x: Tables, pred: seq<int>, mcu: seq<Unit>): (p: seq<int>)
    requires McuOk(x, |pred|, mcu)
    ensures |p| == |pred|
    decreases |mcu|
  {
    if mcu == [] then pred
    else
      assert UnitOk(x, |pred|, mcu[0]);
      PredAfter(x, pred[mcu[0].ci := mcu[0].z[0]], mcu[1..])
  }

  /** No coefficient of the MCU is out of range. */
  ghost predicate McuInRange(x: Tables, pred: seq<int>, mcu: seq<Unit>)
    requires McuOk(x, |pred|, mcu)
    decreases |mcu|
  {
    mcu == [] ||
    (assert UnitOk(x, |pred|, mcu[0]);
     BlockInRange(mcu[0], pred[mcu[0].ci]) && McuInRange(x, pred[mcu[0].ci := mcu[0].z[0]], mcu[1..]))
  }

  datatype McuOut = McuDone(rest: seq<Bit>, pred: seq<int>, blocks: seq<seq<int>>) | McuShort(blocks: seq<seq<int>>)

  ghost function Push(d: seq<int>, o: McuOut): McuOut {
    o.(blocks := [d] + o.blocks)
  }

  /** decode_mcu: the blocks of one MCU in turn; running short, the blocks touched so far. */
  ghost function DecodeMcu(x: Tables, bs: seq<Bit>, pred: seq<int>, mcu: seq<Slot>): (o: McuOut)
    requires Readable(x) && SlotsOk(x, |pred|, mcu)
    ensures o.McuDone? ==> |o.pred| == |pred| && |o.blocks| == |mcu|
    ensures |o.blocks| <= |mcu|
    decreases |mcu|
  {
    if mcu == [] then McuDone(bs, pred, [])
    else
      var u := mcu[0];
      assert SlotOk(x, |pred|, u) && TblOk(x.dc[u.dc]) && TblOk(x.ac[u.ac]);
      match DecodeBlock(x.dc[u.dc], x.ac[u.ac], bs, pred[u.ci], u.d)
      case UnitShort(d) => McuShort([d])
      case UnitDone(bs1, s, d) => Push(d, DecodeMcu(x, bs1, pred[u.ci := s], mcu[1..]))
  }

  function Blank(u: Unit): Slot
  {
    Slot(u.ci, u.dc, u.ac, seq(64, _ => 0))
  }

  function Blanks(mcu: seq<Unit>): (ss: seq<Slot>)
    ensures |ss| == |mcu| && forall i :: 0 <= i < |mcu| ==> ss[i] == Blank(mcu[i])
  {
    seq(|mcu|, i requires 0 <= i < |mcu| => Blank(mcu[i]))
  }

  function Sources(mcu: seq<Unit>): (zs: seq<seq<int>>)
    ensures |zs| == |mcu| && forall i :: 0 <= i < |mcu| ==> zs[i] == mcu[i].z
  {
    seq(|mcu|, i requires 0 <= i < |mcu| => mcu[i].z)
  }

  lemma {:induction false} BlanksOk(x: Tables, comps: nat, mcu: seq<Unit>)
    requires McuOk(x, comps, mcu)
    ensures SlotsOk(x, comps, Blanks(mcu))
  {
    forall i | 0 <= i < |mcu| ensures SlotOk(x, comps, Blanks(mcu)[i]) {
      assert UnitOk(x, comps, mcu[i]);
    }
  }

  /** A whole MCU comes back. */
  lemma {:induction false} McuTaken(x: Tables, pred: seq<int>, mcu: seq<Unit>, rest: seq<Bit>)
    requires TablesOk(x) && McuOk(x, |pred|, mcu) && McuInRange(x, pred, mcu) && AllWritable(x, McuTokens(x, pred, mcu))
    ensures Readable(x) && SlotsOk(x, |pred|, Blanks(mcu))
    ensures DecodeMcu(x, AllBits(x, McuTokens(x, pred, mcu)) + rest, pred, Blanks(mcu))
         == McuDone(rest, PredAfter(x, pred, mcu), Sources(mcu))
    decreases |mcu|
  {
    hide TablesOk, Readable, AllBits, Writable, BlockTokens, BlockInRange, DecodeBlock, AllWritable;
    TablesReadable(x);
    BlanksOk(x, |pred|, mcu);
    if mcu == [] {
      NoTokens(x, rest);
    } else {
      var u := mcu[0];
      assert UnitOk(x, |pred|, u);
      var later := pred[u.ci := u.z[0]];
      var a, b := BlockTokens(u, pred[u.ci]), McuTokens(x, later, mcu[1..]);
      TwoWritable(x, a, b);
      AllBitsConcat(x, a, b);
      Regroup(AllBits(x, a), AllBits(x, b), rest);
      UnitTaken(x, u, pred[u.ci], AllBits(x, b) + rest);
      assert Blanks(mcu)[0].d == Upto(u.z, 0);
      assert Blanks(mcu)[1..] == Blanks(mcu[1..]);
      assert Sources(mcu) == [u.z] + Sources(mcu[1..]);
      McuTaken(x, later, mcu[1..], rest);
    }
  }

  lemma {:induction false} Regroup(a: seq<Bit>, b: seq<Bit>, c: seq<Bit>)
    ensures (a + b) + c == a + (b + c)
  {
  }

  lemma {:induction false} NoTokens(x: Tables, rest: seq<Bit>)
    ensures AllBits(x, []) + rest == rest
  {
    assert [] + rest == rest;
  }
}
