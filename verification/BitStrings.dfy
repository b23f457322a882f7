// Bit strings, most significant bit first, and the numbers they stand for.
module BitStrings {
  import opened Arith

  type Bit = bool

  function Value(bs: seq<Bit>): (v: nat)
    ensures v < Pow2(|bs|)
  {
    if bs == [] then 0
    else
      var n := |bs| - 1;
      2 * Value(bs[..n]) + if bs[n] then 1 else 0
  }

  /** The n low bits of v. */
  function BitsOf(v: nat, n: nat): (bs: seq<Bit>)
    ensures |bs| == n
    decreases n
  {
    if n == 0 then [] else BitsOf(v / 2, n - 1) + [v % 2 == 1]
  }

  lemma {:induction false} ValueOfBits(v: nat, n: nat)
    requires v < Pow2(n)
    ensures Value(BitsOf(v, n)) == v
  {
    if n > 0 {
      var bs := BitsOf(v, n);
      assert bs[..n - 1] == BitsOf(v / 2, n - 1);
      ValueOfBits(v / 2, n - 1);
    }
  }

  lemma {:induction false} BitsOfValue(bs: seq<Bit>)
    ensures BitsOf(Value(bs), |bs|) == bs
  {
    if bs != [] {
      var n := |bs| - 1;
      BitsOfValue(bs[..n]);
      assert bs == bs[..n] + [bs[n]];
    }
  }

  lemma {:induction false} Scaled(a: nat, p: nat, b: nat)
    ensures 2 * (a * p + b) == a * (2 * p) + 2 * b
  {
  }

  lemma {:induction false} ValueConcat(a: seq<Bit>, b: seq<Bit>)
    ensures Value(a + b) == Value(a) * Pow2(|b|) + Value(b)
  {
    if b == [] {
      assert a + b == a;
      assert Pow2(0) == 1;
    } else {
      var n := |b| - 1;
      var ab := a + b;
      assert ab[..|ab| - 1] == a + b[..n];
      ValueConcat(a, b[..n]);
      Scaled(Value(a), Pow2(n), Value(b[..n]));
      assert Pow2(n + 1) == 2 * Pow2(n);
    }
  }

  /** Writing two numbers one after the other. */
  lemma {:induction false} BitsConcat(a: nat, m: nat, b: nat, n: nat)
    requires a < Pow2(m) && b < Pow2(n)
    ensures a * Pow2(n) + b < Pow2(m + n)
    ensures BitsOf(a * Pow2(n) + b, m + n) == BitsOf(a, m) + BitsOf(b, n)
  {
    hide Pow2, BitsOf, Value;
    var x := BitsOf(a, m) + BitsOf(b, n);
    ValueOfBits(a, m);
    ValueOfBits(b, n);
    ValueConcat(BitsOf(a, m), BitsOf(b, n));
    BitsOfValue(x);
  }

  /** The leading bits of a bit string, as a shift. */
  lemma {:induction false} ValuePrefix(bs: seq<Bit>, n: nat)
    requires n <= |bs|
    ensures Value(bs) / Pow2(|bs| - n) == Value(bs[..n]) && Value(bs) % Pow2(|bs| - n) == Value(bs[n..])
  {
    hide Pow2, Value;
    assert bs == bs[..n] + bs[n..];
    ValueConcat(bs[..n], bs[n..]);
    DivUnique(Value(bs), Pow2(|bs| - n), Value(bs[..n]), Value(bs[n..]));
  }

  /** Most significant bit first: the bit at place i has the weight 2^(n - 1 - i). */
  lemma {:induction false} BitOfNumber(v: nat, n: nat, i: nat)
    requires i < n
    ensures BitsOf(v, n)[i] <==> (v / Pow2(n - 1 - i)) % 2 == 1
  {
    if i < n - 1 {
      BitOfNumber(v / 2, n - 1, i);
      HalfFirst(v, Pow2(n - 2 - i));
      assert Pow2(n - 1 - i) == 2 * Pow2(n - 2 - i);
      hide Pow2;
    } else {
      assert Pow2(0) == 1;
    }
  }

  lemma {:induction false} HalfFirst(v: nat, p: nat)
    requires p > 0
    ensures (v / 2) / p == v / (2 * p)
  {
    var q, r := (v / 2) / p, (v / 2) % p;
    assert v / 2 == q * p + r;
    Scaled(q, p, r);
    DivUnique(v, 2 * p, q, 2 * r + v % 2);
  }
}
