// Powers of two, bit counts and the shift facts the coders rest on.
module Arith {

  function Pow2(n: nat): (p: nat)
    ensures p >= 1
  {
    if n == 0 then 1 else 2 * Pow2(n - 1)
  }

  /** Logical right shift of a non-negative number. */
  function ShiftRight(a: nat, n: nat): (q: nat)
    ensures q * Pow2(n) <= a < (q + 1) * Pow2(n)
  {
    DivBounds(a, Pow2(n));
    a / Pow2(n)
  }

  lemma {:induction false} DivBounds(a: nat, d: nat)
    requires d > 0
    ensures 0 <= a / d && (a / d) * d <= a < (a / d + 1) * d
  {
  }

  lemma {:induction false} Pow2Add(a: nat, b: nat)
    ensures Pow2(a + b) == Pow2(a) * Pow2(b)
  {
    if b == 0 {
    } else {
      Pow2Add(a, b - 1);
      assert a + b - 1 == a + (b - 1);
    }
  }

  lemma {:induction false} Pow2Mono(a: nat, b: nat)
    requires a <= b
    ensures Pow2(a) <= Pow2(b)
    decreases b
  {
    if a < b {
      Pow2Mono(a, b - 1);
    }
  }

  /** How often `while (temp) { nbits++; temp >>= 1; }` goes round. */
  function NBits(t: nat): nat
  {
    if t == 0 then 0 else 1 + NBits(t / 2)
  }

  lemma {:induction false} NBitsRange(t: nat)
    requires t > 0
    ensures NBits(t) >= 1
    ensures Pow2(NBits(t) - 1) <= t < Pow2(NBits(t))
  {
    if t > 1 {
      NBitsRange(t / 2);
    } else {
      assert NBits(1) == 1 + NBits(0);
      assert Pow2(1) == 2 * Pow2(0);
    }
  }

  /** A number below 2^n needs at most n bits. */
  lemma {:induction false} NBitsBound(t: nat, n: nat)
    requires t < Pow2(n)
    ensures NBits(t) <= n
  {
    if t > 0 {
      NBitsRange(t);
      if NBits(t) > n {
        Pow2Mono(n, NBits(t) - 1);
      }
    }
  }

  /** The bit-counting loop of the encoders. */
  method CountBits(t: nat) returns (nbits: nat)
    ensures nbits == NBits(t)
  {
    var temp := t;
    nbits := 0;
    while temp != 0
      invariant nbits + NBits(temp) == NBits(t)
    {
      nbits := nbits + 1;
      temp := temp / 2;
    }
  }

  /** Shifting right one place further halves the quotient. */
  lemma {:induction false} HalveQuotient(a: nat, n: nat)
    ensures a / Pow2(n + 1) == (a / Pow2(n)) / 2
  {
    var p := Pow2(n);
    var q, s := a / p, a % p;
    assert a == q * p + s;
    var q2, b := q / 2, q % 2;
    assert a == (2 * q2 + b) * p + s == q2 * (2 * p) + (b * p + s);
    assert b * p + s < 2 * p;
    DivUnique(a, 2 * p, q2, b * p + s);
  }

  lemma {:induction false} DivUnique(a: int, d: nat, q: int, r: int)
    requires d > 0 && 0 <= r < d && a == q * d + r
    ensures a / d == q && a % d == r
  {
    var q', r' := a / d, a % d;
    assert a == q' * d + r';
    assert (q - q') * d == r' - r;
    if q > q' {
      MulAtLeast(q - q', d);
    } else if q < q' {
      MulAtLeast(q' - q, d);
    }
  }

  lemma {:induction false} MulAtLeast(x: nat, d: nat)
    requires x >= 1
    ensures x * d >= d
  {
  }
}
