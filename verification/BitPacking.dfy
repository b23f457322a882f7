// Entropy-coded bytes: packing bits into bytes, stuffing a zero after each FF, and finding
// the data bytes of a segment again up to the marker that ends it.
module BitPacking {
  import opened Arith
  import opened BitStrings

  type Byte = b: nat | b < 256

  // ----- bits and bytes -----

  function ToBits(bytes: seq<Byte>): (bs: seq<Bit>)
    ensures |bs| == 8 * |bytes|
  {
    if bytes == [] then [] else BitsOf(bytes[0], 8) + ToBits(bytes[1..])
  }

  /** The bytes of a whole number of bytes' worth of bits. */
  function Pack(bs: seq<Bit>): (bytes: seq<Byte>)
    requires |bs| % 8 == 0
    ensures 8 * |bytes| == |bs|
  {
    if bs == [] then []
    else
      var v := Value(bs[..8]);
      Pow2Eight();
      [v as Byte] + Pack(bs[8..])
  }

  lemma {:induction false} Pow2Eight()
    ensures Pow2(8) == 256
  {
    assert Pow2(4) == 16;
  }

  lemma {:induction false} PackThenBits(bs: seq<Bit>)
    requires |bs| % 8 == 0
    ensures ToBits(Pack(bs)) == bs
    decreases |bs|
  {
    hide BitsOf, Value;
    if bs != [] {
      PackThenBits(bs[8..]);
      BitsOfValue(bs[..8]);
      assert bs == bs[..8] + bs[8..];
    }
  }

  lemma {:induction false} PackNothing()
    ensures Pack([]) == []
  {
  }

  lemma {:induction false} PackFront(bs: seq<Bit>)
    requires |bs| % 8 == 0 && bs != []
    ensures Value(bs[..8]) < 256 && Pack(bs) == [Value(bs[..8]) as Byte] + Pack(bs[8..])
  {
    Pow2Eight();
    hide Value;
  }

  lemma {:induction false} PackConcat(a: seq<Bit>, b: seq<Bit>)
    requires |a| % 8 == 0 && |b| % 8 == 0
    ensures Pack(a + b) == Pack(a) + Pack(b)
    decreases |a|
  {
    hide Value, Pack;
    PackNothing();
    if a == [] {
      assert a + b == b;
    } else {
      assert (a + b)[..8] == a[..8] && (a + b)[8..] == a[8..] + b;
      PackConcat(a[8..], b);
      PackFront(a);
      PackFront(a + b);
    }
  }

  lemma {:induction false} ToBitsConcat(a: seq<Byte>, b: seq<Byte>)
    ensures ToBits(a + b) == ToBits(a) + ToBits(b)
    decreases |a|
  {
    hide BitsOf;
    if a == [] {
      assert a + b == b;
    } else {
      assert (a + b)[1..] == a[1..] + b;
      ToBitsConcat(a[1..], b);
    }
  }

  // ----- byte stuffing -----

  function Stuffed(b: Byte): seq<Byte> {
    if b == 0xFF then [0xFF, 0] else [b]
  }

  function Stuff(bytes: seq<Byte>): seq<Byte> {
    if bytes == [] then [] else Stuffed(bytes[0]) + Stuff(bytes[1..])
  }

  lemma {:induction false} StuffConcat(a: seq<Byte>, b: seq<Byte>)
    ensures Stuff(a + b) == Stuff(a) + Stuff(b)
    decreases |a|
  {
    if a == [] {
      assert a + b == b;
    } else {
      assert (a + b)[1..] == a[1..] + b;
      StuffConcat(a[1..], b);
    }
  }

  /** In stuffed data every FF is followed by a zero byte: no marker can appear. */
  lemma {:induction false} NoMarkerInside(bytes: seq<Byte>, i: nat)
    requires i < |Stuff(bytes)| && Stuff(bytes)[i] == 0xFF
    ensures i + 1 < |Stuff(bytes)| && Stuff(bytes)[i + 1] == 0
    decreases |bytes|
  {
    var n := |Stuffed(bytes[0])|;
    if i >= n {
      NoMarkerInside(bytes[1..], i - n);
    }
  }

  // ----- the data bytes of a segment -----

  /** Past any number of FF bytes. */
  function SkipFF(input: seq<Byte>): (rest: seq<Byte>)
    ensures |rest| <= |input| && (rest != [] ==> rest[0] != 0xFF)
  {
    if input != [] && input[0] == 0xFF then SkipFF(input[1..]) else input
  }

  /** What the next byte of input is: a data byte, a marker, or not yet known. */
  datatype Next = Datum(b: Byte, rest: seq<Byte>) | Mark(code: Byte, rest: seq<Byte>) | Unknown

  function NextByte(input: seq<Byte>): (n: Next)
    ensures n.Datum? ==> |n.rest| < |input|
    ensures n.Mark? ==> n.code != 0 && n.code != 0xFF && |n.rest| < |input|
  {
    if input == [] then Unknown
    else if input[0] != 0xFF then Datum(input[0], input[1..])
    else
      var rest := SkipFF(input[1..]);
      if rest == [] then Unknown
      else if rest[0] == 0 then Datum(0xFF, rest[1..])
      else Mark(rest[0], rest[1..])
  }

  /** The data bytes before the first marker, as far as the input goes. */
  function Data(input: seq<Byte>): seq<Byte>
    decreases |input|
  {
    match NextByte(input)
    case Datum(b, rest) => [b] + Data(rest)
    case _ => []
  }

  /** The marker that ends the data, or 0 while none has arrived. */
  function Marker(input: seq<Byte>): Byte
    decreases |input|
  {
    match NextByte(input)
    case Datum(b, rest) => Marker(rest)
    case Mark(code, rest) => code
    case Unknown => 0
  }

  /** Input after that marker; while none has arrived, the bytes that cannot be told yet. */
  function AfterMarker(input: seq<Byte>): seq<Byte>
    decreases |input|
  {
    match NextByte(input)
    case Datum(b, rest) => AfterMarker(rest)
    case Mark(code, rest) => rest
    case Unknown => input
  }

  lemma {:induction false} NextStuffed(b: Byte, tail: seq<Byte>)
    ensures NextByte(Stuffed(b) + tail) == Datum(b, tail)
  {
    var input := Stuffed(b) + tail;
    if b == 0xFF {
      assert input == [0xFF, 0] + tail;
      assert input[1..][0] == 0 && input[1..][1..] == tail;
    } else {
      assert input[1..] == tail;
    }
  }

  /** Unstuffing undoes stuffing, whatever follows. */
  lemma {:induction false} DataOfStuffed(bytes: seq<Byte>, tail: seq<Byte>)
    ensures Data(Stuff(bytes) + tail) == bytes + Data(tail)
    ensures Marker(Stuff(bytes) + tail) == Marker(tail) && AfterMarker(Stuff(bytes) + tail) == AfterMarker(tail)
    decreases |bytes|
  {
    hide NextByte;
    if bytes == [] {
      assert Stuff(bytes) + tail == tail;
    } else {
      DataOfStuffed(bytes[1..], tail);
      NextStuffed(bytes[0], Stuff(bytes[1..]) + tail);
      assert Stuff(bytes) + tail == Stuffed(bytes[0]) + (Stuff(bytes[1..]) + tail);
      assert bytes + Data(tail) == [bytes[0]] + (bytes[1..] + Data(tail));
    }
  }

  lemma {:induction false} SkipMore(input: seq<Byte>, more: seq<Byte>)
    requires SkipFF(input) != []
    ensures SkipFF(input + more) == SkipFF(input) + more
  {
    if input[0] == 0xFF {
      SkipMore(input[1..], more);
      assert (input + more)[1..] == input[1..] + more;
    }
  }

  lemma {:induction false} NextMore(input: seq<Byte>, more: seq<Byte>)
    ensures var n := NextByte(input); n.Datum? ==> NextByte(input + more) == Datum(n.b, n.rest + more)
    ensures var n := NextByte(input); n.Mark? ==> NextByte(input + more) == Mark(n.code, n.rest + more)
  {
    if input != [] {
      assert (input + more)[1..] == input[1..] + more;
      if input[0] == 0xFF && SkipFF(input[1..]) != [] {
        SkipMore(input[1..], more);
        assert (SkipFF(input[1..]) + more)[1..] == SkipFF(input[1..])[1..] + more;
      }
    }
  }

  /** Data that has arrived stays as it is when more arrives; a marker ends it for good. */
  lemma {:induction false} DataMore(input: seq<Byte>, more: seq<Byte>)
    ensures Data(input) <= Data(input + more)
    ensures Marker(input) != 0 ==>
      Data(input + more) == Data(input) && Marker(input + more) == Marker(input) && AfterMarker(input + more) == AfterMarker(input) + more
    decreases |input|
  {
    hide NextByte;
    NextMore(input, more);
    if NextByte(input).Datum? {
      DataMore(NextByte(input).rest, more);
    }
  }

  // ----- byte by byte -----

  /** The i-th byte has the i-th eight bits, the first of them as its highest. */
  lemma {:induction false} PackedByte(bs: seq<Bit>, i: nat)
    requires |bs| % 8 == 0 && 8 * i < |bs|
    ensures Pack(bs)[i] == Weight(bs[8 * i], 128) + Weight(bs[8 * i + 1], 64) + Weight(bs[8 * i + 2], 32) + Weight(bs[8 * i + 3], 16)
                         + Weight(bs[8 * i + 4], 8) + Weight(bs[8 * i + 5], 4) + Weight(bs[8 * i + 6], 2) + Weight(bs[8 * i + 7], 1)
    decreases i
  {
    PackFront(bs);
    if i == 0 {
      ValueOfEight(bs[..8]);
    } else {
      hide Value, Pack;
      PackedByte(bs[8..], i - 1);
    }
  }

  function Weight(bit: Bit, w: nat): nat {
    if bit then w else 0
  }

  lemma {:induction false} ValueStep(bs: seq<Bit>, n: nat)
    requires n < |bs|
    ensures Value(bs[..n + 1]) == 2 * Value(bs[..n]) + Weight(bs[n], 1)
  {
    assert bs[..n + 1][..n] == bs[..n];
  }

  lemma {:induction false} Weights(bit: Bit)
    ensures var w := Weight(bit, 1);
      && Weight(bit, 128) == 128 * w && Weight(bit, 64) == 64 * w && Weight(bit, 32) == 32 * w && Weight(bit, 16) == 16 * w
      && Weight(bit, 8) == 8 * w && Weight(bit, 4) == 4 * w && Weight(bit, 2) == 2 * w
  {
  }

  lemma {:induction false} ValueNone()
    ensures Value([]) == 0
  {
  }

  lemma {:induction false} ValueOfEight(bs: seq<Bit>)
    requires |bs| == 8
    ensures Value(bs) == Weight(bs[0], 128) + Weight(bs[1], 64) + Weight(bs[2], 32) + Weight(bs[3], 16)
                       + Weight(bs[4], 8) + Weight(bs[5], 4) + Weight(bs[6], 2) + Weight(bs[7], 1)
  {
    hide Value, Weight, Pow2;
    ValueNone();
    assert bs[..0] == [] && bs[..8] == bs;
    FourBits(bs, 0);
    FourBits(bs, 4);
    Weights(bs[0]);
    Weights(bs[1]);
    Weights(bs[2]);
    Weights(bs[3]);
  }

  lemma {:induction false} FourBits(bs: seq<Bit>, n: nat)
    requires n + 4 <= |bs|
    ensures Value(bs[..n + 4]) == 16 * Value(bs[..n]) + Weight(bs[n], 8) + Weight(bs[n + 1], 4) + Weight(bs[n + 2], 2) + Weight(bs[n + 3], 1)
  {
    hide Value, Weight, Pow2;
    ValueStep(bs, n);
    ValueStep(bs, n + 1);
    ValueStep(bs, n + 2);
    ValueStep(bs, n + 3);
    Weights(bs[n]);
    Weights(bs[n + 1]);
    Weights(bs[n + 2]);
  }

  /** Each byte is written once, and an FF with a zero byte after it. */
  lemma {:induction false} StuffedOne(a: seq<Byte>, b: Byte, c: seq<Byte>)
    ensures Stuff([]) == []
    ensures Stuff(a + [b] + c) == Stuff(a) + (if b == 0xFF then [0xFF, 0] else [b]) + Stuff(c)
  {
    StuffConcat(a + [b], c);
    StuffConcat(a, [b]);
    assert Stuff([b]) == Stuffed(b) + Stuff([]) == Stuffed(b);
  }
}
