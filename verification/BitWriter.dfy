// Packing bits into bytes as the sequential encoder does it (emit_bits, flush_bits): a
// 24-bit left-justified buffer inside a 32-bit word, of which at most 7 bits are kept.
module BitWriter {
  import opened Arith
  import opened BitStrings
  import opened BitPacking

  const WORD: nat := 0x1_0000_0000
  const WORD24: nat := 0x100_0000

  /** The low 24 bits of the buffer hold exactly the bits w, left-justified. */
  ghost predicate Holds(pb: nat, w: seq<Bit>)
  {
    |w| <= 24 && pb < WORD && pb % WORD24 == Value(w) * Pow2(24 - |w|)
  }

  lemma {:induction false} Pow2Sum(n: nat, m: nat)
    requires n + m == 24 || n + m == 16
    ensures Pow2(n) * Pow2(m) == if n + m == 24 then WORD24 else 65536
  {
    Pow2Words();
    Pow2Add(n, m);
    hide Pow2;
  }

  lemma {:induction false} Pow2Words()
    ensures Pow2(8) == 256 && Pow2(16) == 65536 && Pow2(24) == WORD24
  {
    assert Pow2(4) == 16;
    assert Pow2(8) == 256;
    assert Pow2(12) == 4096;
    assert Pow2(16) == 65536;
    assert Pow2(20) == 0x10_0000;
  }

  lemma {:induction false} MulLess(a: nat, b: nat, p: nat)
    requires a < b && p > 0
    ensures a * p < b * p
  {
  }

  /** A number h, l, low with h the byte above bit 16. */
  lemma {:induction false} SplitWord(pb: nat, h: nat, low: nat)
    requires pb % WORD24 == h * 65536 + low && h < 256 && low < 65536
    ensures (pb / 65536) % 256 == h
    ensures (pb * 256) % WORD % WORD24 == (low * 256) % WORD24
  {
    var q := pb / WORD24;
    DivUnique(pb, 65536, q * 256 + h, low);
    DivUnique(q * 256 + h, 256, q, h);
    DivUnique(pb * 256, WORD, q, h * WORD24 + low * 256);
    DivUnique(h * WORD24 + low * 256, WORD24, h, low * 256);
    DivUnique(low * 256, WORD24, 0, low * 256);
  }

  lemma {:induction false} Reassociate(v: nat, h: nat, l: nat, a: nat, p: nat, b: nat)
    requires v == h * a + l && a * p == b
    ensures v * p == h * b + l * p
  {
    assert (h * a) * p == h * (a * p);
  }

  lemma {:induction false} TakeByte(pb: nat, v: nat, h: nat, l: nat, a: nat, p: nat)
    requires a * p == 65536 && p > 0 && pb % WORD24 == v * p && v == h * a + l && h < 256 && l < a
    ensures (pb / 65536) % 256 == h
    ensures (pb * 256) % WORD % WORD24 == l * (p * 256)
  {
    Reassociate(v, h, l, a, p, 65536);
    MulLess(l, a, p);
    SplitWord(pb, h, l * p);
    assert (l * p) * 256 == l * (p * 256);
  }

  /** One byte out of the buffer: the first eight bits leave, the rest stay left-justified. */
  lemma {:induction false} ByteOut(pb: nat, w: seq<Bit>)
    requires 8 <= |w| <= 24 && Holds(pb, w)
    ensures (pb / 65536) % 256 == Value(w[..8])
    ensures Holds((pb * 256) % WORD, w[8..])
  {
    hide Value, Pow2;
    var n := |w|;
    ValueConcat(w[..8], w[8..]);
    assert w == w[..8] + w[8..];
    Pow2Words();
    Pow2Sum(n - 8, 24 - n);
    Pow2Add(24 - n, 8);
    TakeByte(pb, Value(w), Value(w[..8]), Value(w[8..]), Pow2(n - 8), Pow2(24 - n));
  }

  lemma {:induction false} PutBits(pb: nat, v: nat, code: nat, a: nat, b: nat, p: nat, low: nat)
    requires pb < WORD && pb % WORD24 == v * low && low > 0 && p > 0 && b * p == low && a * low == WORD24
    requires v < a && code < b
    ensures code * p < low && (pb % WORD24) % low == 0
    ensures pb + code * p < WORD && (pb + code * p) % WORD24 == (v * b + code) * p
  {
    MulLess(code, b, p);
    DivUnique(v * low, low, v, 0);
    Reassociate(v * b + code, v, code, b, p, low);
    MulAtLeast(a - v, low);
    assert v * low == a * low - (a - v) * low;
    AddBelow(pb, code * p, v * low);
  }

  /** Aligning new bits below those in the buffer; the two fields do not overlap, so that
      adding them is the same as or-ing them. */
  lemma {:induction false} BitsIn(pb: nat, w: seq<Bit>, code: nat, size: nat)
    requires Holds(pb, w) && |w| <= 7 && 1 <= size <= 16 && code < Pow2(size)
    ensures var shifted := code * Pow2(24 - (|w| + size));
      && shifted < Pow2(24 - |w|) && (pb % WORD24) % Pow2(24 - |w|) == 0
      && Holds(pb + shifted, w + BitsOf(code, size))
  {
    hide Value, Pow2, BitsOf;
    var n, m := |w|, 24 - (|w| + size);
    ValueConcat(w, BitsOf(code, size));
    ValueOfBits(code, size);
    Pow2Add(size, m);
    Pow2Sum(n, 24 - n);
    PutBits(pb, Value(w), code, Pow2(n), Pow2(size), Pow2(m), Pow2(24 - n));
  }

  lemma {:induction false} AddBelow(pb: nat, shifted: nat, low: nat)
    requires pb < WORD && pb % WORD24 == low && low + shifted < WORD24
    ensures pb + shifted < WORD && (pb + shifted) % WORD24 == low + shifted
  {
    var q := pb / WORD24;
    assert pb == q * WORD24 + low;
  }

  /** A segment of entropy-coded bits as it stands in the output. */
  class Writer {
    var out: seq<Byte>
    var putBuffer: nat
    var putBits: nat
    /** Output before the current segment, and the bits of the segment so far. */
    ghost var base: seq<Byte>
    ghost var bits: seq<Bit>

    ghost predicate Valid()
      reads this
    {
      && putBits <= 7 && putBits <= |bits| && (|bits| - putBits) % 8 == 0
      && out == base + Stuff(Pack(bits[..|bits| - putBits]))
      && Holds(putBuffer, bits[|bits| - putBits..])
    }

    constructor ()
      ensures Valid() && out == [] && bits == [] && base == []
    {
      out, putBuffer, putBits := [], 0, 0;
      base, bits := [], [];
    }

    /** emit_byte, with a zero after an FF. */
    method EmitByte(c: Byte)
      modifies this`out
      ensures out == old(out) + Stuffed(c)
    {
      out := out + [c];
      if c == 0xFF {
        out := out + [0];
      }
    }

    /** The loop of emit_bits: whole bytes leave the buffer. */
    method Drain(pb0: nat, n0: nat, ghost done0: seq<Bit>, ghost w0: seq<Bit>)
      returns (pb: nat, n: nat, ghost done: seq<Bit>, ghost w: seq<Bit>)
      requires n0 == |w0| <= 23 && Holds(pb0, w0) && |done0| % 8 == 0 && out == base + Stuff(Pack(done0))
      modifies this`out
      ensures n == |w| <= 7 && Holds(pb, w) && |done| % 8 == 0 && out == base + Stuff(Pack(done))
      ensures done + w == done0 + w0
    {
      hide Holds, Stuff, Stuffed, Pack, Value;
      pb, n, done, w := pb0, n0, done0, w0;
      while n >= 8
        invariant n == |w| <= 23 && Holds(pb, w) && |done| % 8 == 0
        invariant done + w == done0 + w0
        invariant out == base + Stuff(Pack(done))
      {
        ByteOut(pb, w);
        EightBits(w[..8]);
        var c: Byte := (pb / 65536) % 256;
        EmitByte(c);
        ByteDone(base, done, w[..8], c);
        Regroup(done, w);
        done, w := done + w[..8], w[8..];
        pb := (pb * 256) % WORD;
        n := n - 8;
      }
    }

    /** emit_bits: false for a missing code (size 0); otherwise the low `size` bits of code
        are appended, and at most 7 bits stay in the buffer. */
    method EmitBits(code: int, size: nat) returns (ok: bool)
      requires Valid() && size <= 16
      modifies this`out, this`putBuffer, this`putBits, this`bits
      ensures Valid() && (ok <==> size != 0)
      ensures bits == if ok then old(bits) + BitsOf(code % Pow2(size), size) else old(bits)
    {
      hide Holds, Stuff, Pack, BitsOf, Pow2;
      if size == 0 {
        return false;
      }
      ghost var w := bits[|bits| - putBits..];
      ghost var done := bits[..|bits| - putBits];
      var word := code % Pow2(size);
      BitsIn(putBuffer, w, word, size);
      var n := putBits + size;
      var pb := word * Pow2(24 - n) + putBuffer;
      Appended(bits, putBits, BitsOf(word, size));
      bits := bits + BitsOf(word, size);
      pb, n, done, w := Drain(pb, n, done, w + BitsOf(word, size));
      assert bits[..|bits| - n] == done && bits[|bits| - n..] == w;
      putBuffer, putBits := pb, n;
      ok := true;
    }

    /** flush_bits: the last byte is filled up with ones. */
    method FlushBits()
      requires Valid()
      modifies this`out, this`putBuffer, this`putBits, this`bits
      ensures Valid() && bits == old(bits) + Padding(|old(bits)|) && putBits == 0
      ensures |bits| % 8 == 0 && out == base + Stuff(Pack(bits))
    {
      hide Holds, Stuff, Pack, Padding, BitsOf, Pow2;
      ghost var bits0 := bits;
      var ok := EmitBits(0x7F, 7);
      SevenOnes();
      FlushKept(bits0, putBits);
      putBuffer, putBits := 0, 0;
      bits := bits0 + Padding(|bits0|);
      assert bits[..|bits|] == bits && bits[|bits|..] == [];
      NothingHeld();
    }

    /** A marker between segments; the next segment starts byte-aligned. */
    method EmitMarker(code: Byte)
      requires Valid() && putBits == 0
      modifies this`out, this`base, this`bits
      ensures Valid() && bits == [] && base == out == old(out) + [0xFF, code]
    {
      hide Valid;
      AtBoundary();
      out := out + [0xFF];
      out := out + [code];
      base, bits := out, [];
      NewSegment();
    }

    lemma {:induction false} AtBoundary()
      requires Valid() && putBits == 0
      ensures Holds(putBuffer, [])
    {
      assert bits[|bits|..] == [];
      hide Holds, Stuff, Pack;
    }

    lemma {:induction false} NewSegment()
      requires putBits == 0 && bits == [] && out == base && Holds(putBuffer, [])
      ensures Valid()
    {
      var none: seq<Bit> := [];
      assert none[..0] == none && none[0..] == none;
      EmptySegment(base);
      hide Holds, Stuff, Pack;
    }
  }

  /** The one-bits that fill up the last byte of a segment of n bits. */
  function Padding(n: nat): (p: seq<Bit>)
    ensures (n + |p|) % 8 == 0 && |p| <= 7
  {
    seq((8 - n % 8) % 8, _ => true)
  }

  lemma {:induction false} EightBits(w: seq<Bit>)
    requires |w| == 8
    ensures Value(w) < 256
  {
    Pow2Words();
    hide Value, Pow2;
  }

  lemma {:induction false} SevenOnes()
    ensures BitsOf(0x7F % Pow2(7), 7) == seq(7, _ => true)
  {
    assert Pow2(7) == 128;
    assert BitsOf(1, 1) == [true];
    assert BitsOf(7, 3) == [true, true, true];
    assert BitsOf(31, 5) == [true, true, true, true, true];
  }

  lemma {:induction false} Regroup(done: seq<Bit>, w: seq<Bit>)
    requires |w| >= 8
    ensures (done + w[..8]) + w[8..] == done + w
  {
  }

  lemma {:induction false} Appended(bits: seq<Bit>, kept: nat, more: seq<Bit>)
    requires kept <= |bits|
    ensures bits[..|bits| - kept] + (bits[|bits| - kept..] + more) == bits + more
  {
  }

  /** Of the seven ones, those beyond the byte are dropped. */
  lemma {:induction false} FlushKept(bits0: seq<Bit>, kept: nat)
    requires kept <= 7 && (|bits0| + 7 - kept) % 8 == 0
    ensures (bits0 + seq(7, _ => true))[..|bits0| + 7 - kept] == bits0 + Padding(|bits0|)
  {
    assert 7 - kept == (8 - |bits0| % 8) % 8;
  }

  lemma {:induction false} EmptySegment(base: seq<Byte>)
    ensures base + Stuff(Pack([])) == base
  {
    assert base + [] == base;
  }

  lemma {:induction false} NothingHeld()
    ensures Holds(0, [])
  {
    assert 0 * Pow2(24) == 0;
  }

  lemma {:induction false} ByteDone(base: seq<Byte>, done: seq<Bit>, eight: seq<Bit>, c: Byte)
    requires |done| % 8 == 0 && |eight| == 8 && c == Value(eight)
    ensures (base + Stuff(Pack(done))) + Stuffed(c) == base + Stuff(Pack(done + eight))
  {
    PackConcat(done, eight);
    assert eight[..8] == eight && eight[8..] == [];
    assert Pack(eight) == [c] + Pack([]) == [c];
    StuffConcat(Pack(done), [c]);
    assert Stuff([c]) == Stuffed(c) + Stuff([]) == Stuffed(c);
    hide Value, Pack, Stuff;
    assert (base + Stuff(Pack(done))) + Stuffed(c) == base + (Stuff(Pack(done)) + Stuffed(c));
  }
}
