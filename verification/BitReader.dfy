// Reading bits back (jpeg_fill_bit_buffer, the bit macros and HUFF_DECODE): a 32-bit buffer
// filled ahead of need, markers that end the data, and suspension when input runs out.
module BitReader {
  import opened Arith
  import opened BitStrings
  import opened BitPacking
  import opened HuffmanCodes
  import opened HuffmanDecoding

  const WORD: nat := 0x1_0000_0000
  const MIN_GET_BITS: nat := 25

  // ----- the buffer as bits -----

  /** The valid bits of the buffer. */
  function Held(gb: nat, n: nat): (w: seq<Bit>)
    ensures |w| == n
  {
    BitsOf(gb % Pow2(n), n)
  }

  lemma {:induction false} Pow2Word()
    ensures Pow2(8) == 256 && Pow2(32) == WORD
  {
    assert Pow2(4) == 16;
    assert Pow2(8) == 256;
    assert Pow2(12) == 4096;
    assert Pow2(16) == 65536;
    Pow2Add(16, 16);
  }

  lemma {:induction false} ModOfMod(a: nat, p: nat, q: nat)
    requires p > 0 && q > 0
    ensures (a % (p * q)) % p == a % p
  {
    var k, r := a / (p * q), a % (p * q);
    assert a == k * (p * q) + r;
    var j, s := r / p, r % p;
    assert r == j * p + s;
    assert k * (p * q) == (k * q) * p;
    assert a == (k * q + j) * p + s by {
      assert (k * q + j) * p == (k * q) * p + j * p;
    }
    DivUnique(a, p, k * q + j, s);
  }

  lemma {:induction false} ShiftIn(gb: nat, v: nat, c: nat, p: nat)
    requires p > 0 && gb % p == v && c < 256
    ensures (gb * 256 + c) % (p * 256) == v * 256 + c && v * 256 + c < p * 256
  {
    var q := gb / p;
    assert gb == q * p + v;
    assert (q * p) * 256 == q * (p * 256);
    assert v < p;
    DivUnique(gb * 256 + c, p * 256, q, v * 256 + c);
  }

  /** get_buffer = (get_buffer << 8) | c. */
  lemma {:induction false} HeldMore(gb: nat, n: nat, c: nat)
    requires n <= 24 && c < 256
    ensures Held((gb * 256 + c) % WORD, n + 8) == Held(gb, n) + BitsOf(c, 8)
  {
    hide Pow2, BitsOf;
    var v := gb % Pow2(n);
    Pow2Word();
    Pow2Add(n, 8);
    Pow2Add(n + 8, 24 - n);
    ShiftIn(gb, v, c, Pow2(n));
    ModOfMod(gb * 256 + c, Pow2(n + 8), Pow2(24 - n));
    BitsConcat(v, n, c, 8);
  }

  lemma {:induction false} SplitHeld(gb: nat, v: nat, h: nat, l: nat, a: nat, b: nat)
    requires a > 0 && b > 0 && gb % (b * a) == v == h * a + l && h < b && l < a
    ensures (gb / a) % b == h && gb % a == l
  {
    var q := gb / (b * a);
    assert gb == q * (b * a) + v;
    assert q * (b * a) == (q * b) * a;
    assert gb == (q * b + h) * a + l by {
      assert (q * b + h) * a == (q * b) * a + h * a;
    }
    DivUnique(gb, a, q * b + h, l);
    DivUnique(q * b + h, b, q, h);
  }

  /** GET_BITS(k): the top k of the n valid bits, and what stays valid below them. */
  lemma {:induction false} HeldSplit(gb: nat, n: nat, k: nat)
    requires k <= n
    ensures (gb / Pow2(n - k)) % Pow2(k) == Value(Held(gb, n)[..k])
    ensures Held(gb, n - k) == Held(gb, n)[k..]
  {
    hide Pow2, BitsOf, Value;
    var v, w := gb % Pow2(n), Held(gb, n);
    ValueOfBits(v, n);
    assert w == w[..k] + w[k..];
    ValueConcat(w[..k], w[k..]);
    Pow2Add(k, n - k);
    SplitHeld(gb, v, Value(w[..k]), Value(w[k..]), Pow2(n - k), Pow2(k));
    BitsOfValue(w[k..]);
  }

  lemma {:induction false} HeldNothing(gb: nat)
    ensures Held(gb, 0) == []
  {
  }

  // ----- the reader -----

  /** Discarding the padding FFs of a marker or the zero of a stuffed FF. */
  method ReadByte(input: seq<Byte>) returns (r: Next)
    ensures r == NextByte(input)
  {
    if input == [] {
      return Unknown;
    }
    var c, rest := input[0], input[1..];
    if c == 0xFF {
      while c == 0xFF
        invariant c == 0xFF ==> SkipFF(rest) == SkipFF(input[1..])
        invariant c != 0xFF ==> SkipFF(input[1..]) == [c] + rest
        decreases |rest|, c == 0xFF
      {
        if rest == [] {
          return Unknown;
        }
        SkipOne(rest);
        c, rest := rest[0], rest[1..];
      }
      assert ([c] + rest)[1..] == rest;
      return if c == 0 then Datum(0xFF, rest) else Mark(c, rest);
    }
    return Datum(c, rest);
  }

  lemma {:induction false} SkipOne(rest: seq<Byte>)
    requires rest != []
    ensures if rest[0] == 0xFF then SkipFF(rest) == SkipFF(rest[1..]) else SkipFF(rest) == [rest[0]] + rest[1..]
  {
  }

  /** The working state of one MCU together with the flags that are set for good. */
  class Reader {
    var input: seq<Byte>
    var getBuffer: nat
    var bitsLeft: nat
    var unreadMarker: Byte
    var insufficientData: bool

    constructor (inp: seq<Byte>, gb: nat, n: nat, marker: Byte, insufficient: bool)
      requires gb < WORD && n <= 32 && (insufficient ==> marker != 0)
      ensures Valid() && input == inp && getBuffer == gb && bitsLeft == n
      ensures unreadMarker == marker && insufficientData == insufficient
    {
      input, getBuffer, bitsLeft := inp, gb, n;
      unreadMarker, insufficientData := marker, insufficient;
    }

    /** Zero bits are invented only once a marker has been reached. */
    ghost predicate Valid()
      reads this`getBuffer, this`bitsLeft, this`insufficientData, this`unreadMarker
    {
      getBuffer < WORD && bitsLeft <= 32 && (insufficientData ==> unreadMarker != 0)
    }

    /** Every bit still to come before the marker, as far as the input goes. */
    ghost function Ahead(): seq<Bit>
      reads this`getBuffer, this`bitsLeft, this`input, this`unreadMarker
    {
      Coming(getBuffer, bitsLeft, unreadMarker, input)
    }

    /** The marker that ends this segment, 0 while it has not arrived, and what follows it. */
    ghost function Ending(): (Byte, seq<Byte>)
      reads this`input, this`unreadMarker
    {
      if unreadMarker != 0 then (unreadMarker, input) else (Marker(input), AfterMarker(input))
    }

    /** jpeg_fill_bit_buffer.  It fails, changing nothing, when the input runs out before a
        marker, even if the request itself could be met; by then fewer than 25 bits
        are left. */
    method FillBitBuffer(nbits: nat) returns (ok: bool)
      requires Valid() && nbits <= 25
      modifies this
      ensures Valid()
      ensures !ok ==> unchanged(this) && unreadMarker == 0 && Marker(input) == 0 && |Ahead()| < 25
      ensures ok ==> bitsLeft >= nbits && (bitsLeft >= 25 || unreadMarker != 0) && Ending() == old(Ending())
      ensures ok ==> old(Ahead()) <= Ahead()
      ensures ok && !insufficientData ==> Ahead() == old(Ahead())
      ensures insufficientData && !old(insufficientData) ==> nbits > |old(Ahead())|
      ensures old(insufficientData) ==> insufficientData
      ensures nbits == 0 ==> insufficientData == old(insufficientData) && (ok ==> Ahead() == old(Ahead()))
    {
      hide Coming;
      var gb: nat, n: nat, inp := getBuffer, bitsLeft, input;
      if unreadMarker == 0 {
        while n < MIN_GET_BITS
          invariant n <= 32 && gb < WORD && unreadMarker == 0
          invariant Coming(gb, n, 0, inp) == old(Ahead())
          invariant Marker(inp) == Marker(input) && AfterMarker(inp) == AfterMarker(input)
          invariant unchanged(this)
          decreases MIN_GET_BITS + 8 - n
        {
          var r := ReadByte(inp);
          Loaded(gb, n, inp);
          match r
          case Unknown =>
            return false;
          case Mark(code, rest) =>
            unreadMarker := code;
            inp := rest;
            break;
          case Datum(c, rest) =>
            gb := (gb * 256 + c) % WORD;
            n := n + 8;
            inp := rest;
        }
      }
      if unreadMarker != 0 && nbits > n {
        CountAhead(gb, n, unreadMarker, inp);
        ZerosIn(gb, n, unreadMarker, inp);
        insufficientData := true;
        gb := (gb * Pow2(MIN_GET_BITS - n)) % WORD;
        n := MIN_GET_BITS;
      }
      input, getBuffer, bitsLeft := inp, gb, n;
      ok := true;
    }

    /** CHECK_BIT_BUFFER. */
    method CheckBitBuffer(nbits: nat) returns (ok: bool)
      requires Valid() && nbits <= 25
      modifies this
      ensures Valid()
      ensures !ok ==> unchanged(this) && unreadMarker == 0 && Marker(input) == 0 && |Ahead()| < 25
      ensures ok ==> bitsLeft >= nbits && Ending() == old(Ending())
      ensures ok ==> old(Ahead()) <= Ahead()
      ensures ok && !insufficientData ==> Ahead() == old(Ahead())
      ensures insufficientData && !old(insufficientData) ==> nbits > |old(Ahead())|
      ensures old(insufficientData) ==> insufficientData
    {
      ok := true;
      if bitsLeft < nbits {
        ok := FillBitBuffer(nbits);
      }
    }

    /** GET_BITS. */
    method GetBits(nbits: nat) returns (v: nat)
      requires Valid() && nbits <= bitsLeft
      modifies this`bitsLeft
      ensures Valid() && nbits <= |old(Ahead())| && v == Value(old(Ahead())[..nbits]) && Ahead() == old(Ahead())[nbits..]
      ensures v < Pow2(nbits)
    {
      hide Value, Pow2;
      Taken(getBuffer, bitsLeft, nbits, unreadMarker, input);
      bitsLeft := bitsLeft - nbits;
      v := (getBuffer / Pow2(bitsLeft)) % Pow2(nbits);
    }

    /** PEEK_BITS. */
    method PeekBits(nbits: nat) returns (v: nat)
      requires Valid() && nbits <= bitsLeft
      ensures nbits <= |Ahead()| && v == Value(Ahead()[..nbits]) && v < Pow2(nbits)
    {
      hide Value, Pow2;
      Taken(getBuffer, bitsLeft, nbits, unreadMarker, input);
      v := (getBuffer / Pow2(bitsLeft - nbits)) % Pow2(nbits);
    }

    /** DROP_BITS. */
    method DropBits(nbits: nat)
      requires Valid() && nbits <= bitsLeft
      modifies this`bitsLeft
      ensures Valid() && nbits <= |old(Ahead())| && Ahead() == old(Ahead())[nbits..]
    {
      hide Value, Pow2;
      Taken(getBuffer, bitsLeft, nbits, unreadMarker, input);
      bitsLeft := bitsLeft - nbits;
    }

    /** What every reading routine keeps, and what its failures mean. */
    twostate predicate Progress(ok: bool)
      reads this
    {
      && Valid() && Ending() == old(Ending())
      && (old(insufficientData) ==> insufficientData)
      && (!ok ==> unreadMarker == 0 && insufficientData == old(insufficientData) && Marker(input) == 0 && |Ahead()| < 25)
    }

    /** The code is at least minBits long: nothing known yet, or no lookahead entry. */
    ghost predicate Longer(d: DTbl, minBits: nat)
      requires DTblOk(d)
      reads this
    {
      || minBits == 1
      || (minBits == 9 && |Ahead()| >= 8 && Value(Ahead()[..8]) < 256 == |d.lookNbits| && d.lookNbits[Value(Ahead()[..8])] == 0)
    }

    /** Fetching the first minBits bits in one go. */
    method FetchMinimum(d: DTbl, minBits: nat) returns (ok: bool, code: nat, ghost got: seq<Bit>)
      requires Valid() && DTblOk(d) && Longer(d, minBits)
      modifies this
      ensures Progress(ok)
      ensures ok ==> |got| == minBits && code == Value(got) && Beyond(d.pub, got, minBits)
      ensures !ok ==> |old(Ahead())| < 25
      ensures ok && !insufficientData ==> old(Ahead()) == got + Ahead()
      ensures insufficientData && !old(insufficientData) ==> NextSymbol(d.pub, old(Ahead())) == NeedBits
    {
      hide Value, NextSymbol, Beyond, DTblOk, Coming;
      ghost var a := Ahead();
      code, got := 0, [];
      ok := CheckBitBuffer(minBits);
      if ok {
        got := Ahead()[..minBits];
        assert Ahead() == got + Ahead()[minBits..];
        MinimumBeyond(d, minBits, a, got);
        code := GetBits(minBits);
      }
    }

    /** jpeg_huff_decode: the rest of a code of at least minBits bits, bit by bit. */
    method SlowDecode(d: DTbl, minBits: nat) returns (ok: bool, sym: nat)
      requires Valid() && DTblOk(d) && Longer(d, minBits)
      modifies this
      ensures Progress(ok)
      ensures ok ==> Listed(d.pub, sym)
      ensures ok && !insufficientData ==> Took(d, old(Ahead()), Ahead(), sym)
      ensures insufficientData && !old(insufficientData) ==> NextSymbol(d.pub, old(Ahead())) == NeedBits
      ensures !ok ==> FewAfter(d, old(Ahead()))
    {
      hide Value, NextSymbol, Beyond, DTblOk, Coming, Took, Listed, FewAfter;
      TblShape(d);
      sym := 0;
      var l, code := minBits, 0;
      ghost var got;
      ok, code, got := FetchMinimum(d, l);
      if !ok {
        FewNow(d, old(Ahead()));
        return;
      }
      Sentinel(d, got, l);
      while code > d.maxcode[l]
        invariant 1 <= l <= 17 && |got| == l && code == Value(got) && Beyond(d.pub, got, l)
        invariant l == 17 ==> code <= d.maxcode[17]
        invariant Valid() && Ending() == old(Ending())
        invariant !insufficientData ==> old(Ahead()) == got + Ahead()
        invariant insufficientData && !old(insufficientData) ==> NextSymbol(d.pub, old(Ahead())) == NeedBits
        invariant old(insufficientData) ==> insufficientData
        decreases 17 - l
      {
        RanOut(d, got, l);
        assert got + [] == got;
        ghost var known, left := got, Ahead();
        ok, code, got := FetchOne(d, l, code, got);
        if !ok {
          FewLeft(d, known, l, left);
          return;
        }
        l := l + 1;
        Sentinel(d, got, l);
      }
      CodeFound(d, got, l, Ahead());
      sym := if l > 16 then 0 else d.pub.huffval[code + d.valoffset[l]];
    }

    /** One more bit of a code that is longer than l. */
    method FetchOne(d: DTbl, l: nat, code0: nat, ghost got0: seq<Bit>) returns (ok: bool, code: nat, ghost got: seq<Bit>)
      requires Valid() && DTblOk(d) && 1 <= l <= 16 == |d.maxcode| - 2 && |got0| == l && code0 == Value(got0)
      requires Beyond(d.pub, got0, l) && code0 > d.maxcode[l]
      modifies this
      ensures Progress(ok)
      ensures ok ==> |got| == l + 1 && code == Value(got) && Beyond(d.pub, got, l + 1)
      ensures !ok ==> |old(Ahead())| < 25
      ensures ok && !insufficientData ==> got0 + old(Ahead()) == got + Ahead()
      ensures insufficientData && !old(insufficientData) ==> old(Ahead()) == []
    {
      hide Value, Beyond, DTblOk, Coming;
      code, got := code0, got0;
      ok := CheckBitBuffer(1);
      if ok {
        ghost var b := Ahead();
        var bit := GetBits(1);
        OneBit(b[..1], bit);
        GotMore(d, got0, bit == 1, l);
        got := got0 + [bit == 1];
        assert got0 + b == got + b[1..];
        assert |got| == l + 1 && got[..l] == got0;
        LastBit(got0, bit == 1);
        code := 2 * code0 + bit;
      }
    }

    /** HUFF_DECODE: the lookahead table, or bit by bit from 9 bits or from 1 bit on. */
    method HuffDecode(d: DTbl) returns (ok: bool, sym: nat)
      requires Valid() && DTblOk(d)
      modifies this
      ensures Progress(ok)
      ensures ok ==> Listed(d.pub, sym)
      ensures ok && !insufficientData ==> Took(d, old(Ahead()), Ahead(), sym)
      ensures insufficientData && !old(insufficientData) ==> NextSymbol(d.pub, old(Ahead())) == NeedBits
      ensures !ok ==> FewAfter(d, old(Ahead()))
    {
      hide Value, NextSymbol, DTblOk, Coming, Took, Listed, FewAfter;
      sym := 0;
      if bitsLeft < HUFF_LOOKAHEAD {
        ok := FillBitBuffer(0);
        if !ok {
          TblShape(d);
          FewNow(d, Ahead());
          return;
        }
        if bitsLeft < HUFF_LOOKAHEAD {
          ok, sym := SlowDecode(d, 1);
          return;
        }
      }
      var look := PeekBits(HUFF_LOOKAHEAD);
      FastHit(d, Ahead());
      var nb := d.lookNbits[look];
      if nb != 0 {
        TookFast(d, Ahead(), nb, d.lookSym[look]);
        DropBits(nb);
        sym := d.lookSym[look];
        ok := true;
      } else {
        ok, sym := SlowDecode(d, HUFF_LOOKAHEAD + 1);
      }
    }
  }

  lemma {:induction false} TookFast(d: DTbl, a: seq<Bit>, nb: nat, s: nat)
    requires DTblOk(d) && nb <= 8 <= |a| && NextSymbol(d.pub, a) == Found(s, nb)
    ensures Took(d, a, a[nb..], s) && Listed(d.pub, s)
  {
    hide NextSymbol, DTblOk, Total, Listed;
    TblShape(d);
    NextListed(d.pub, a);
  }

  lemma {:induction false} TblShape(d: DTbl)
    requires DTblOk(d)
    ensures Shape(d.pub) && Total(d.pub.bits) <= 256
  {
  }

  lemma {:induction false} OneBit(w: seq<Bit>, bit: nat)
    requires |w| == 1 && bit == Value(w)
    ensures bit <= 1 && w == [bit == 1]
  {
    assert w[..0] == [];
    assert Value(w) == 2 * Value([]) + if w[0] then 1 else 0;
  }

  lemma {:induction false} LastBit(got: seq<Bit>, b: Bit)
    ensures Value(got + [b]) == 2 * Value(got) + if b then 1 else 0
  {
    assert (got + [b])[..|got|] == got;
  }

  /** Codes no longer than the known bits head them whatever follows. */
  lemma {:induction false} HeadsExtends(t: HuffTbl, p: nat, got: seq<Bit>, more: seq<Bit>)
    requires Shape(t) && p < Total(t.bits) && LengthAt(t.bits, p) <= |got|
    ensures Heads(t, p, got) <==> Heads(t, p, got + more)
  {
    hide Value, LengthAt, CodeAt;
    assert (got + more)[..LengthAt(t.bits, p)] == got[..LengthAt(t.bits, p)];
  }

  /** A symbol found stays found when more bits follow. */
  lemma {:induction false} NextMonotone(t: HuffTbl, got: seq<Bit>, more: seq<Bit>)
    requires Shape(t) && Total(t.bits) <= 256 && FitsUpTo(t.bits, 16) && NextSymbol(t, got).Found?
    ensures NextSymbol(t, got + more) == NextSymbol(t, got)
  {
    hide Value, LengthAt, CodeAt, FitsUpTo, Total;
    if p: nat :| Heads(t, p, got) {
      HeadsExtends(t, p, got, more);
      NextIs(t, p, got);
      NextIs(t, p, got + more);
    } else {
      forall p: nat | Heads(t, p, got + more) ensures false {
        HeadsExtends(t, p, got, more);
      }
    }
  }

  /** Too few bits for any code still possible. */
  lemma {:induction false} TooShort(t: HuffTbl, a: seq<Bit>, m: nat)
    requires Shape(t) && Total(t.bits) <= 256 && 1 <= m <= 17 && Beyond(t, a, m) && |a| < m
    ensures NextSymbol(t, a) == NeedBits
  {
    hide Value, LengthAt, CodeAt, Total;
  }

  lemma {:induction false} MinimumBeyond(d: DTbl, m: nat, a: seq<Bit>, got: seq<Bit>)
    requires DTblOk(d) && |got| == m && (a <= got || got <= a)
    requires m == 1 || (m == 9 && |a| >= 8 && Value(a[..8]) < 256 == |d.lookNbits| && d.lookNbits[Value(a[..8])] == 0)
    ensures Beyond(d.pub, got, m) && (|a| < m ==> NextSymbol(d.pub, a) == NeedBits)
  {
    hide Value, NextSymbol, Beyond;
    TblShape(d);
    if m == 1 {
      BeyondNothing(d.pub, got);
      BeyondNothing(d.pub, a);
    } else {
      assert got[..8] == a[..8];
      FastMiss(d, got);
      FastMiss(d, a);
    }
    hide DTblOk;
    if |a| < m {
      TooShort(d.pub, a, m);
    }
  }

  lemma {:induction false} Sentinel(d: DTbl, got: seq<Bit>, l: nat)
    requires DTblOk(d) && 1 <= l <= 17 && |got| == l && Beyond(d.pub, got, l)
    ensures |d.maxcode| == 18 && |d.valoffset| == 17 && (l == 17 ==> Value(got) <= d.maxcode[17])
  {
    hide Value, NextSymbol, Beyond, DTblOk;
    DTblFacts(d, 1);
    if l == 17 {
      assert got[..17] == got;
      SlowGarbage(d, got);
    }
  }

  lemma {:induction false} RanOut(d: DTbl, got: seq<Bit>, l: nat)
    requires DTblOk(d) && 1 <= l <= 16 && |got| == l && Beyond(d.pub, got, l) && |d.maxcode| == 18 && Value(got) > d.maxcode[l]
    ensures NextSymbol(d.pub, got) == NeedBits
  {
    hide Value, NextSymbol, Beyond;
    assert got[..l] == got;
    SlowStep(d, got, l);
    TblShape(d);
    hide DTblOk;
    TooShort(d.pub, got, l + 1);
  }

  lemma {:induction false} GotMore(d: DTbl, got: seq<Bit>, b: Bit, l: nat)
    requires DTblOk(d) && 1 <= l <= 16 && |got| == l && Beyond(d.pub, got, l) && |d.maxcode| == 18 && Value(got) > d.maxcode[l]
    ensures Beyond(d.pub, got + [b], l + 1)
  {
    var t := d.pub;
    TblShape(d);
    DTblFacts(d, l);
    hide DTblOk, Value, LengthAt, CodeAt, First, Total;
    assert got[..l] == got && (got + [b])[..l] == got;
    forall p: nat | Heads(t, p, got + [b]) ensures LengthAt(t.bits, p) >= l {
      if LengthAt(t.bits, p) < l {
        HeadsExtends(t, p, got, [b]);
      }
    }
    BeyondNext(t, got + [b], l);
  }

  lemma {:induction false} CodeFound(d: DTbl, got: seq<Bit>, l: nat, rest: seq<Bit>)
    requires DTblOk(d) && 1 <= l <= 17 && |got| == l && Beyond(d.pub, got, l)
    requires |d.maxcode| == 18 && |d.valoffset| == 17 && Value(got) <= d.maxcode[l]
    ensures Shape(d.pub) && (l <= 16 ==> 0 <= Value(got) + d.valoffset[l] < 256)
    ensures Took(d, got + rest, rest, if l > 16 then 0 else d.pub.huffval[Value(got) + d.valoffset[l]])
    ensures Listed(d.pub, if l > 16 then 0 else d.pub.huffval[Value(got) + d.valoffset[l]])
  {
    hide Value, NextSymbol, Beyond;
    assert got[..l] == got;
    if l <= 16 {
      SlowStep(d, got, l);
    } else {
      SlowGarbage(d, got);
    }
    NextMonotone(d.pub, got, rest);
    NextListed(d.pub, got);
    assert (got + rest)[l..] == rest;
  }

  /** A symbol of the table, or the 0 that stands for no code at all. */
  ghost predicate Listed(t: HuffTbl, s: nat)
    requires Shape(t)
  {
    s < 256 && (s == 0 || exists p :: 0 <= p < 256 && p < Total(t.bits) && t.huffval[p] == s)
  }

  lemma {:induction false} NextListed(t: HuffTbl, bs: seq<Bit>)
    requires Shape(t) && Total(t.bits) <= 256 && NextSymbol(t, bs).Found?
    ensures Listed(t, NextSymbol(t, bs).sym)
  {
    hide Value, LengthAt, CodeAt, Total;
  }

  /** The stream a starts with the code of sym, and b is what follows it. */
  ghost predicate Took(d: DTbl, a: seq<Bit>, b: seq<Bit>, sym: nat)
    requires Shape(d.pub) && Total(d.pub.bits) <= 256
  {
    match NextSymbol(d.pub, a)
    case Found(s, used) => s == sym && used <= |a| && b == a[used..]
    case NeedBits => false
  }

  /** A symbol at the head of a would leave fewer than 25 bits. */
  ghost predicate FewAfter(d: DTbl, a: seq<Bit>)
    requires Shape(d.pub) && Total(d.pub.bits) <= 256
  {
    match NextSymbol(d.pub, a)
    case Found(_, used) => |a| < used + 25
    case NeedBits => true
  }

  lemma {:induction false} FewNow(d: DTbl, a: seq<Bit>)
    requires Shape(d.pub) && Total(d.pub.bits) <= 256 && |a| < 25
    ensures FewAfter(d, a)
  {
    hide NextSymbol, Total;
  }

  /** Codes shorter than what is known are ruled out. */
  lemma {:induction false} UsesKnown(t: HuffTbl, got: seq<Bit>, l: nat, more: seq<Bit>)
    requires Shape(t) && Total(t.bits) <= 256 && 1 <= l <= 17 && |got| == l && Beyond(t, got, l)
    ensures match NextSymbol(t, got + more)
      case Found(_, used) => used >= l
      case NeedBits => true
  {
    hide Value, LengthAt, CodeAt, Total;
    forall p: nat | Heads(t, p, got + more) ensures LengthAt(t.bits, p) >= l {
      if LengthAt(t.bits, p) < l {
        HeadsExtends(t, p, got, more);
      }
    }
  }

  lemma {:induction false} FewLeft(d: DTbl, got: seq<Bit>, l: nat, rest: seq<Bit>)
    requires DTblOk(d) && 1 <= l <= 17 && |got| == l && Beyond(d.pub, got, l) && |rest| < 25
    ensures Shape(d.pub) && Total(d.pub.bits) <= 256 && FewAfter(d, got + rest)
  {
    hide Beyond, NextSymbol;
    TblShape(d);
    hide DTblOk;
    UsesKnown(d.pub, got, l, rest);
  }

  ghost function Coming(gb: nat, n: nat, marker: Byte, input: seq<Byte>): (bs: seq<Bit>)
    ensures |bs| >= n
  {
    Held(gb, n) + if marker == 0 then ToBits(Data(input)) else []
  }

  lemma {:induction false} Loaded(gb: nat, n: nat, input: seq<Byte>)
    requires n <= 24
    ensures match NextByte(input)
      case Datum(c, rest) => Coming((gb * 256 + c) % WORD, n + 8, 0, rest) == Coming(gb, n, 0, input)
        && Marker(rest) == Marker(input) && AfterMarker(rest) == AfterMarker(input)
      case Mark(code, rest) => Coming(gb, n, code, rest) == Coming(gb, n, 0, input)
        && Marker(input) == code && AfterMarker(input) == rest
      case Unknown => Marker(input) == 0 && |Coming(gb, n, 0, input)| == n
  {
    hide Held, BitsOf, NextByte;
    match NextByte(input)
    case Datum(c, rest) =>
      HeldMore(gb, n, c);
      assert ([c] + Data(rest))[1..] == Data(rest);
      assert ToBits(Data(input)) == BitsOf(c, 8) + ToBits(Data(rest));
      assert (Held(gb, n) + BitsOf(c, 8)) + ToBits(Data(rest)) == Held(gb, n) + (BitsOf(c, 8) + ToBits(Data(rest)));
    case _ =>
  }

  /** get_buffer <<= 25 - bits_left: zero bits after the valid ones. */
  lemma {:induction false} ZerosIn(gb: nat, n: nat, marker: Byte, input: seq<Byte>)
    requires marker != 0 && n <= 25
    ensures Coming(gb, n, marker, input) <= Coming((gb * Pow2(25 - n)) % WORD, 25, marker, input)
  {
    hide Pow2, BitsOf;
    var k := MIN_GET_BITS - n;
    var v, p := gb % Pow2(n), Pow2(k);
    Pow2Word();
    Pow2Add(n, k);
    Pow2Add(MIN_GET_BITS, 7);
    ModOfMod(gb * p, Pow2(MIN_GET_BITS), Pow2(7));
    ShiftZeros(gb, v, Pow2(n), p);
    BitsConcat(v, n, 0, k);
    assert Held(gb, n) + [] == Held(gb, n);
  }

  lemma {:induction false} ShiftZeros(gb: nat, v: nat, a: nat, p: nat)
    requires a > 0 && p > 0 && gb % a == v
    ensures (gb * p) % (a * p) == v * p
  {
    var q := gb / a;
    assert gb == q * a + v;
    assert (q * a) * p == q * (a * p);
    MulAtLeast(a - v, p);
    assert v * p == a * p - (a - v) * p;
    DivUnique(gb * p, a * p, q, v * p);
  }

  lemma {:induction false} CountAhead(gb: nat, n: nat, marker: Byte, input: seq<Byte>)
    requires marker != 0
    ensures |Coming(gb, n, marker, input)| == n
  {
  }

  lemma {:induction false} Taken(gb: nat, n: nat, k: nat, marker: Byte, input: seq<Byte>)
    requires k <= n
    ensures var a := Coming(gb, n, marker, input);
      k <= |a| && (gb / Pow2(n - k)) % Pow2(k) == Value(a[..k]) && Coming(gb, n - k, marker, input) == a[k..]
  {
    hide Pow2, Value, Held, ToBits, Data;
    HeldSplit(gb, n, k);
    CutFront(Held(gb, n), if marker == 0 then ToBits(Data(input)) else [], k);
  }

  lemma {:induction false} CutFront(w: seq<Bit>, rest: seq<Bit>, k: nat)
    requires k <= |w|
    ensures (w + rest)[..k] == w[..k] && (w + rest)[k..] == w[k..] + rest
  {
  }
}
