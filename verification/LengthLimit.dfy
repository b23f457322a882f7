// Limiting code lengths to 16 bits (section K.2 of ITU-T T.81) on the counts of codes of each
// length: the Kraft sum and the number of codes stay what they were.
module LengthLimit {
  import opened Arith

  const MAX_CLEN: nat := 32

  /** The Kraft sum of counts of lengths 1..n, in units of 2^-32. */
  function KraftUpTo(bits: seq<nat>, n: nat): nat
    requires |bits| == MAX_CLEN + 1 && n <= MAX_CLEN
  {
    if n == 0 then 0 else KraftUpTo(bits, n - 1) + bits[n] * Pow2(32 - n)
  }

  function Kraft32(bits: seq<nat>): nat
    requires |bits| == MAX_CLEN + 1
  {
    KraftUpTo(bits, MAX_CLEN)
  }

  function CountUpTo(bits: seq<nat>, n: nat): nat
    requires |bits| == MAX_CLEN + 1 && n <= MAX_CLEN
  {
    if n == 0 then 0 else CountUpTo(bits, n - 1) + bits[n]
  }

  function Count(bits: seq<nat>): nat
    requires |bits| == MAX_CLEN + 1
  {
    CountUpTo(bits, MAX_CLEN)
  }

  lemma {:induction false} UpdateSums(bits: seq<nat>, l: nat, v: nat, n: nat)
    requires |bits| == MAX_CLEN + 1 && 1 <= l <= MAX_CLEN && n <= MAX_CLEN
    ensures KraftUpTo(bits[l := v], n) + (if l <= n then bits[l] * Pow2(32 - l) else 0)
         == KraftUpTo(bits, n) + (if l <= n then v * Pow2(32 - l) else 0)
    ensures CountUpTo(bits[l := v], n) + (if l <= n then bits[l] else 0) == CountUpTo(bits, n) + (if l <= n then v else 0)
  {
    if n > 0 {
      UpdateSums(bits, l, v, n - 1);
      hide Pow2;
    }
  }

  /** Changing one count by e (which may be negative). */
  lemma {:induction false} ChangeOne(bits: seq<nat>, l: nat, v: nat)
    requires |bits| == MAX_CLEN + 1 && 1 <= l <= MAX_CLEN
    ensures Kraft32(bits[l := v]) + bits[l] * Pow2(32 - l) == Kraft32(bits) + v * Pow2(32 - l)
    ensures Count(bits[l := v]) + bits[l] == Count(bits) + v
  {
    UpdateSums(bits, l, v, MAX_CLEN);
    hide KraftUpTo, CountUpTo, Pow2;
  }

  /** Two codes of length i and one of length j give way to one of length i - 1 and two of
      length j + 1. */
  function Moved(bits: seq<nat>, i: nat, j: nat): (b: seq<nat>)
    requires |bits| == MAX_CLEN + 1 && 1 <= j <= i - 2 && i <= MAX_CLEN && bits[i] >= 2 && bits[j] >= 1
    ensures |b| == |bits|
  {
    var b1 := bits[i := bits[i] - 2];
    var b2 := b1[i - 1 := b1[i - 1] + 1];
    var b3 := b2[j + 1 := b2[j + 1] + 2];
    b3[j := b3[j] - 1]
  }

  lemma {:induction false} Times(a: nat, e: int, p: nat)
    ensures (a + e) * p == a * p + e * p
  {
  }

  lemma {:induction false} MovedKeeps(bits: seq<nat>, i: nat, j: nat)
    requires |bits| == MAX_CLEN + 1 && 1 <= j <= i - 2 && i <= MAX_CLEN && bits[i] >= 2 && bits[j] >= 1
    ensures Kraft32(Moved(bits, i, j)) == Kraft32(bits) && Count(Moved(bits, i, j)) == Count(bits)
  {
    var b1 := bits[i := bits[i] - 2];
    var b2 := b1[i - 1 := b1[i - 1] + 1];
    var b3 := b2[j + 1 := b2[j + 1] + 2];
    ChangeOne(bits, i, bits[i] - 2);
    ChangeOne(b1, i - 1, b1[i - 1] + 1);
    ChangeOne(b2, j + 1, b2[j + 1] + 2);
    ChangeOne(b3, j, b3[j] - 1);
    assert Pow2(32 - (i - 1)) == 2 * Pow2(32 - i);
    assert Pow2(32 - j) == 2 * Pow2(32 - (j + 1));
    hide Kraft32, Count, Pow2;
    Times(bits[i], -2, Pow2(32 - i));
    Times(b1[i - 1], 1, Pow2(32 - (i - 1)));
    Times(b2[j + 1], 2, Pow2(32 - (j + 1)));
    Times(b3[j], -1, Pow2(32 - j));
  }

  // ----- what a Kraft sum of 1 implies -----

  /** No code is longer than i. */
  ghost predicate NoneBeyond(bits: seq<nat>, i: nat)
    requires |bits| == MAX_CLEN + 1
  {
    forall l :: i < l <= MAX_CLEN ==> bits[l] == 0
  }

  lemma {:induction false} KraftStops(bits: seq<nat>, i: nat, n: nat)
    requires |bits| == MAX_CLEN + 1 && i <= n <= MAX_CLEN && NoneBeyond(bits, i)
    ensures KraftUpTo(bits, n) == KraftUpTo(bits, i) && CountUpTo(bits, n) == CountUpTo(bits, i)
    decreases n
  {
    if n > i {
      KraftStops(bits, i, n - 1);
      hide Pow2;
    }
  }

  /** Up to length i the sum is a whole number of units of 2^-i. */
  lemma {:induction false} KraftUnits(bits: seq<nat>, i: nat) returns (q: nat)
    requires |bits| == MAX_CLEN + 1 && i <= MAX_CLEN
    ensures KraftUpTo(bits, i) == q * Pow2(32 - i)
  {
    if i == 0 {
      q := 0;
    } else {
      var p := KraftUnits(bits, i - 1);
      assert Pow2(32 - (i - 1)) == 2 * Pow2(32 - i);
      hide Pow2;
      q := 2 * p + bits[i];
      Regroup(p, bits[i], Pow2(32 - i));
    }
  }

  lemma {:induction false} Regroup(p: nat, b: nat, u: nat)
    ensures p * (2 * u) + b * u == (2 * p + b) * u
  {
  }

  /** With Kraft sum 1 the codes of the greatest length come in pairs. */
  lemma {:induction false} LongestPaired(bits: seq<nat>, i: nat)
    requires |bits| == MAX_CLEN + 1 && 1 <= i <= MAX_CLEN && NoneBeyond(bits, i) && Kraft32(bits) == Pow2(32)
    ensures bits[i] % 2 == 0
  {
    KraftStops(bits, i, MAX_CLEN);
    var p := KraftUnits(bits, i - 1);
    assert Pow2(32 - (i - 1)) == 2 * Pow2(32 - i);
    Pow2Add(i - 1, 32 - (i - 1));
    hide Pow2, NoneBeyond;
    Regroup(p, bits[i], Pow2(32 - i));
    EvenRest(Pow2(i - 1), p, bits[i], Pow2(32 - i));
  }

  lemma {:induction false} EvenRest(a: nat, p: nat, b: nat, u: nat)
    requires u > 0 && (2 * p + b) * u == a * (2 * u)
    ensures b % 2 == 0
  {
    assert a * (2 * u) == (2 * a) * u;
    DivUnique((2 * p + b) * u, u, 2 * p + b, 0);
    DivUnique((2 * a) * u, u, 2 * a, 0);
    assert b == 2 * (a - p);
  }

  /** If all codes were at least i - 1 bits long, there would be too many of them. */
  lemma {:induction false} FewLong(bits: seq<nat>, j: nat, i: nat)
    requires |bits| == MAX_CLEN + 1 && j <= i <= MAX_CLEN && forall l :: 1 <= l <= j ==> bits[l] == 0
    ensures KraftUpTo(bits, i) <= CountUpTo(bits, i) * Pow2(32 - (if j < 32 then j + 1 else 32))
    decreases i
  {
    if i > j {
      FewLong(bits, j, i - 1);
      Pow2Mono(32 - i, 32 - (j + 1));
      hide Pow2;
      Bounded(bits[i], Pow2(32 - i), Pow2(32 - (j + 1)), CountUpTo(bits, i - 1));
    } else if i > 0 {
      NoneKraft(bits, i);
    }
  }

  lemma {:induction false} NoneKraft(bits: seq<nat>, i: nat)
    requires |bits| == MAX_CLEN + 1 && i <= MAX_CLEN && forall l :: 1 <= l <= i ==> bits[l] == 0
    ensures KraftUpTo(bits, i) == 0
  {
    if i > 0 {
      NoneKraft(bits, i - 1);
      hide Pow2;
    }
  }

  lemma {:induction false} Bounded(b: nat, u: nat, v: nat, c: nat)
    requires u <= v
    ensures c * v + b * u <= (c + b) * v
  {
    assert b * u <= b * v;
  }

  /** With at most 255 codes and a greatest length above 16, some code is at least two bits
      shorter than the longest. */
  lemma {:induction false} ShortExists(bits: seq<nat>, i: nat) returns (j: nat)
    requires |bits| == MAX_CLEN + 1 && 17 <= i <= MAX_CLEN && NoneBeyond(bits, i)
    requires Kraft32(bits) == Pow2(32) && Count(bits) <= 255
    ensures 1 <= j <= i - 2 && bits[j] > 0
  {
    if forall l :: 1 <= l <= i - 2 ==> bits[l] == 0 {
      KraftStops(bits, i, MAX_CLEN);
      FewLong(bits, i - 2, i);
      Pow2Add(i - 1, 32 - (i - 1));
      Pow2Mono(16, i - 1);
      assert Pow2(16) > 255 by { Pow2Sixteen(); }
      hide Pow2, NoneBeyond, KraftUpTo, CountUpTo;
      TooFew(Count(bits), Pow2(i - 1), Pow2(32 - (i - 1)));
      assert false;
    }
    j :| 1 <= j <= i - 2 && bits[j] > 0;
  }

  lemma {:induction false} TooFew(c: nat, a: nat, u: nat)
    requires c < a && u > 0
    ensures c * u < a * u
  {
    MulAtLeast(a - c, u);
    assert a * u == c * u + (a - c) * u;
  }

  lemma {:induction false} Pow2Sixteen()
    ensures Pow2(16) == 65536
  {
    assert Pow2(4) == 16;
    assert Pow2(8) == 256;
    assert Pow2(12) == 4096;
  }

  // ----- the loop -----

  /** The counters are bytes in the source. */
  ghost predicate Bytes(bits: seq<nat>)
    requires |bits| == MAX_CLEN + 1
  {
    forall l :: 1 <= l <= MAX_CLEN ==> bits[l] <= 255
  }

  lemma {:induction false} CountAtLeast(bits: seq<nat>, l: nat, n: nat)
    requires |bits| == MAX_CLEN + 1 && 1 <= l <= n <= MAX_CLEN
    ensures bits[l] <= CountUpTo(bits, n)
    decreases n
  {
    if n > l {
      CountAtLeast(bits, l, n - 1);
    }
  }

  /** No counter overflows while the total is at most 255. */
  lemma {:induction false} NoOverflow(bits: seq<nat>)
    requires |bits| == MAX_CLEN + 1 && Count(bits) <= 255
    ensures Bytes(bits)
  {
    forall l | 1 <= l <= MAX_CLEN ensures bits[l] <= 255 {
      CountAtLeast(bits, l, MAX_CLEN);
    }
  }

  /** The greatest length up to n that is in use, or 0. */
  function LastUsed(bits: seq<nat>, n: nat): (j: nat)
    requires n < |bits|
    ensures j <= n && (j > 0 ==> bits[j] > 0) && forall l :: j < l <= n ==> bits[l] == 0
  {
    if n == 0 || bits[n] > 0 then n else LastUsed(bits, n - 1)
  }

  /** Figure K.3 of ITU-T T.81 from length i down: while two codes are longer than 16 bits, one gets their common
      prefix and the other is paired with the longest code at least two bits shorter. */
  function Limited(bits: seq<nat>, i: nat): (b: seq<nat>)
    requires |bits| == MAX_CLEN + 1 && i <= MAX_CLEN
    ensures |b| == |bits|
    decreases i, if i <= MAX_CLEN then bits[i] else 0
  {
    if i <= 16 then bits
    else if bits[i] < 2 then Limited(bits, i - 1)
    else
      var j := LastUsed(bits, i - 2);
      if j == 0 then bits else Limited(Moved(bits, i, j), i)
  }

  lemma {:induction false} LimitedStep(bits: seq<nat>, i: nat)
    requires |bits| == MAX_CLEN + 1 && 16 < i <= MAX_CLEN
    ensures bits[i] == 0 ==> Limited(bits, i) == Limited(bits, i - 1)
    ensures var j := LastUsed(bits, i - 2); bits[i] >= 2 && j > 0 ==> Limited(bits, i) == Limited(Moved(bits, i, j), i)
  {
    hide Moved, LastUsed;
  }

  /** One round of the inner loop at length i. */
  method MoveTwo(bits: array<nat>, i: nat)
    requires bits.Length == MAX_CLEN + 1 && 17 <= i <= MAX_CLEN && bits[i] > 0 && bits[0] == 0
    requires NoneBeyond(bits[..], i) && Kraft32(bits[..]) == Pow2(32) && Count(bits[..]) <= 255
    modifies bits
    ensures bits[0] == 0 && NoneBeyond(bits[..], i) && bits[i] + 2 == old(bits[i]) && Bytes(bits[..])
    ensures Kraft32(bits[..]) == Pow2(32) && Count(bits[..]) == old(Count(bits[..]))
    ensures Limited(bits[..], i) == old(Limited(bits[..], i))
  {
    hide Kraft32, Count, Pow2, Limited, LastUsed;
    ghost var b := bits[..];
    LongestPaired(b, i);
    ghost var shorter := ShortExists(b, i);
    var j := i - 2;
    while bits[j] == 0
      invariant bits[..] == b && shorter <= j <= i - 2 && LastUsed(b, i - 2) == LastUsed(b, j)
      decreases j
    {
      LastUsedStep(b, j);
      j := j - 1;
    }
    LastUsedStep(b, j);
    LimitedStep(b, i);
    MovedKeeps(b, i, j);
    bits[i] := bits[i] - 2;
    bits[i - 1] := bits[i - 1] + 1;
    bits[j + 1] := bits[j + 1] + 2;
    bits[j] := bits[j] - 1;
    assert bits[..] == Moved(b, i, j);
    NoOverflow(bits[..]);
  }

  lemma {:induction false} LastUsedStep(bits: seq<nat>, n: nat)
    requires 0 < n < |bits|
    ensures LastUsed(bits, n) == if bits[n] > 0 then n else LastUsed(bits, n - 1)
  {
  }

  /** The limiting loop, and the removal of one code of the greatest length left; without a code
      above 16 bits that is all that changes. */
  method Limit(bits: array<nat>) returns (longest: nat)
    requires bits.Length == MAX_CLEN + 1 && bits[0] == 0 && Kraft32(bits[..]) == Pow2(32) && 2 <= Count(bits[..]) <= 255
    modifies bits
    ensures 1 <= longest <= 16 && bits[0] == 0 && NoneBeyond(bits[..], longest)
    ensures Kraft32(bits[..]) + Pow2(32 - longest) == Pow2(32) && Count(bits[..]) + 1 == old(Count(bits[..]))
    ensures var b := Limited(old(bits[..]), MAX_CLEN);
      longest == LastUsed(b, 16) && b[longest] > 0 && bits[..] == b[longest := b[longest] - 1]
    ensures old(NoneBeyond(bits[..], 16)) ==>
      && old(bits[longest]) > 0 && old(NoneBeyond(bits[..], longest))
      && bits[..] == old(bits[..])[longest := old(bits[longest]) - 1]
  {
    hide Kraft32, Count, Pow2, Limited, LastUsed;
    var i: nat := MAX_CLEN;
    while i > 16
      invariant Limited(bits[..], i) == old(Limited(bits[..], MAX_CLEN))
      invariant 16 <= i <= MAX_CLEN && bits[0] == 0 && NoneBeyond(bits[..], i)
      invariant old(NoneBeyond(bits[..], 16)) ==> bits[..] == old(bits[..])
      invariant Kraft32(bits[..]) == Pow2(32) && Count(bits[..]) == old(Count(bits[..]))
    {
      while bits[i] > 0
        invariant bits[0] == 0 && NoneBeyond(bits[..], i)
        invariant old(NoneBeyond(bits[..], 16)) ==> bits[..] == old(bits[..])
        invariant Limited(bits[..], i) == old(Limited(bits[..], MAX_CLEN))
        invariant Kraft32(bits[..]) == Pow2(32) && Count(bits[..]) == old(Count(bits[..]))
        decreases bits[i]
      {
        MoveTwo(bits, i);
      }
      LimitedStep(bits[..], i);
      i := i - 1;
    }
    NothingLimited(bits[..]);
    SomeLeft(bits[..]);
    ghost var b := bits[..];
    while bits[i] == 0
      invariant bits[..] == b && i <= 16 && LastUsed(b, 16) == LastUsed(b, i) && NoneBeyond(bits[..], i) && exists l :: 1 <= l <= i && bits[l] > 0
      decreases i
    {
      LastUsedStep(b, i);
      i := i - 1;
    }
    LastUsedStep(b, i);
    ChangeOne(b, i, b[i] - 1);
    Times(b[i], -1, Pow2(32 - i));
    bits[i] := bits[i] - 1;
    assert bits[..] == b[i := b[i] - 1];
    longest := i;
  }

  lemma {:induction false} NothingLimited(bits: seq<nat>)
    requires |bits| == MAX_CLEN + 1
    ensures Limited(bits, 16) == bits
  {
  }

  lemma {:induction false} NoneCounted(bits: seq<nat>, n: nat)
    requires |bits| == MAX_CLEN + 1 && n <= MAX_CLEN && forall l :: 1 <= l <= n ==> bits[l] == 0
    ensures CountUpTo(bits, n) == 0
  {
    if n > 0 {
      NoneCounted(bits, n - 1);
    }
  }

  lemma {:induction false} SomeLeft(bits: seq<nat>)
    requires |bits| == MAX_CLEN + 1 && Count(bits) > 0 && NoneBeyond(bits, 16)
    ensures exists l :: 1 <= l <= 16 && bits[l] > 0
  {
    if forall l :: 1 <= l <= 16 ==> bits[l] == 0 {
      NoneCounted(bits, MAX_CLEN);
    }
  }

  // ----- an example -----

  /** One code of each length up to 16, and two of 17 bits. */
  function Chain(): (bits: seq<nat>)
    ensures |bits| == MAX_CLEN + 1
  {
    seq(MAX_CLEN + 1, l => if 1 <= l <= 16 then 1 else if l == 17 then 2 else 0)
  }

  /** Of the two codes of 17 bits one becomes their prefix of 16 bits, and the other joins the code of
      15 bits, which becomes longer. */
  lemma {:induction false} ChainLimited()
    ensures forall l :: 0 <= l <= 32 ==> Limited(Chain(), 17)[l] == if 1 <= l <= 14 then 1 else if l == 16 then 4 else 0
  {
    hide Limited;
    ChainMoved();
    hide Moved, LastUsed;
    LimitedStep(Chain(), 17);
    LimitedStep(Moved(Chain(), 17, 15), 17);
    NoneAt17(Moved(Chain(), 17, 15));
  }

  lemma {:induction false} ChainMoved()
    ensures LastUsed(Chain(), 15) == 15
    ensures forall l :: 0 <= l <= 32 ==> Moved(Chain(), 17, 15)[l] == if 1 <= l <= 14 then 1 else if l == 16 then 4 else 0
  {
  }

  lemma {:induction false} NoneAt17(bits: seq<nat>)
    requires |bits| == MAX_CLEN + 1
    ensures Limited(bits, 16) == bits
  {
  }
}
