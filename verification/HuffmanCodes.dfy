// Canonical Huffman codes (Annex C of ITU-T T.81) from the 16 length counts of a table, and
// exactly which tables the encoder accepts.
module HuffmanCodes {
  import opened Arith

  /** bits[l] counts the codes of length l; huffval lists the symbols by code length. */
  datatype HuffTbl = HuffTbl(bits: seq<nat>, huffval: seq<nat>)

  predicate Shape(t: HuffTbl) {
    |t.bits| == 17 && |t.huffval| == 256 && forall p :: 0 <= p < 256 ==> t.huffval[p] < 256
  }

  /** How many codes are shorter than l. */
  function Start(bits: seq<nat>, l: nat): nat
    requires |bits| == 17 && 1 <= l <= 17
  {
    if l == 1 then 0 else Start(bits, l - 1) + bits[l - 1]
  }

  /** The first code of length l. */
  function First(bits: seq<nat>, l: nat): nat
    requires |bits| == 17 && 1 <= l <= 17
  {
    if l == 1 then 0 else 2 * (First(bits, l - 1) + bits[l - 1])
  }

  function Total(bits: seq<nat>): nat
    requires |bits| == 17
  {
    Start(bits, 17)
  }

  lemma {:induction false} StartMono(bits: seq<nat>, l: nat, m: nat)
    requires |bits| == 17 && 1 <= l <= m <= 17
    ensures Start(bits, l) <= Start(bits, m)
    decreases m
  {
    if l < m {
      StartMono(bits, l, m - 1);
    }
  }

  lemma {:induction false} AtMostTotal(bits: seq<nat>, l: nat)
    requires |bits| == 17 && 1 <= l <= 17
    ensures Start(bits, l) <= Total(bits)
  {
    StartMono(bits, l, 17);
  }

  /** The length of the p-th code, looked for from length l up. */
  function LengthFrom(bits: seq<nat>, p: nat, l: nat): (n: nat)
    requires |bits| == 17 && 1 <= l <= 16 && Start(bits, l) <= p < Total(bits)
    ensures l <= n <= 16 && Start(bits, n) <= p < Start(bits, n + 1) == Start(bits, n) + bits[n]
    decreases 16 - l
  {
    if p < Start(bits, l + 1) then l
    else LengthFrom(bits, p, l + 1)
  }

  function LengthAt(bits: seq<nat>, p: nat): (n: nat)
    requires |bits| == 17 && p < Total(bits)
    ensures 1 <= n <= 16 && Start(bits, n) <= p < Start(bits, n + 1) == Start(bits, n) + bits[n]
  {
    LengthFrom(bits, p, 1)
  }

  /** The p-th code. */
  function CodeAt(bits: seq<nat>, p: nat): nat
    requires |bits| == 17 && p < Total(bits)
  {
    First(bits, LengthAt(bits, p)) + (p - Start(bits, LengthAt(bits, p)))
  }

  lemma {:induction false} LengthUnique(bits: seq<nat>, p: nat, l: nat)
    requires |bits| == 17 && 1 <= l <= 16 && Start(bits, l) <= p < Start(bits, l + 1)
    ensures p < Total(bits) && LengthAt(bits, p) == l
  {
    StartMono(bits, l + 1, 17);
    var n := LengthAt(bits, p);
    if n < l {
      StartMono(bits, n + 1, l);
    } else if l < n {
      StartMono(bits, l + 1, n);
    }
  }

  lemma {:induction false} LengthMono(bits: seq<nat>, p: nat, q: nat)
    requires |bits| == 17 && p <= q < Total(bits)
    ensures LengthAt(bits, p) <= LengthAt(bits, q)
  {
    var l, m := LengthAt(bits, p), LengthAt(bits, q);
    if m < l {
      StartMono(bits, m + 1, l);
    }
  }

  // ----- which length counts are legal -----

  /** Figure C.2 never runs out of codes, nor uses the all-ones code, up to length l. */
  predicate FitsUpTo(bits: seq<nat>, l: nat)
    requires |bits| == 17 && l <= 16
  {
    forall j :: 1 <= j <= l ==> First(bits, j) + bits[j] < Pow2(j)
  }

  /** The Kraft sum of the codes of length at most l, in units of 2^-16. */
  function Kraft(bits: seq<nat>, l: nat): nat
    requires |bits| == 17 && l <= 16
  {
    if l == 0 then 0 else Kraft(bits, l - 1) + bits[l] * Pow2(16 - l)
  }

  lemma {:induction false} KraftIsLast(bits: seq<nat>, l: nat)
    requires |bits| == 17 && 1 <= l <= 16
    ensures Kraft(bits, l) == (First(bits, l) + bits[l]) * Pow2(16 - l)
  {
    if l == 1 {
      assert Kraft(bits, 1) == Kraft(bits, 0) + bits[1] * Pow2(15);
    } else {
      KraftIsLast(bits, l - 1);
      assert Pow2(16 - (l - 1)) == 2 * Pow2(16 - l);
      Distribute(First(bits, l - 1) + bits[l - 1], bits[l], Pow2(16 - l));
    }
  }

  lemma {:induction false} Distribute(a: int, b: int, p: int)
    ensures (2 * a + b) * p == a * (2 * p) + b * p
  {
  }

  lemma {:induction false} KraftMono(bits: seq<nat>, l: nat, m: nat)
    requires |bits| == 17 && l <= m <= 16
    ensures Kraft(bits, l) <= Kraft(bits, m)
    decreases m
  {
    if l < m {
      KraftMono(bits, l, m - 1);
    }
  }

  lemma {:induction false} ScaleLess(a: nat, b: nat, p: nat)
    requires p > 0
    ensures a < b <==> a * p < b * p
  {
    if a < b {
      MulAtLeast(b - a, p);
      assert b * p == a * p + (b - a) * p;
    } else {
      assert a * p == b * p + (a - b) * p;
    }
  }

  /** The length counts are legal exactly when their Kraft sum is below 1. */
  lemma {:induction false} FitsIffKraft(bits: seq<nat>)
    requires |bits| == 17
    ensures FitsUpTo(bits, 16) <==> Kraft(bits, 16) < Pow2(16)
  {
    hide Kraft, First, Pow2;
    forall l | 1 <= l <= 16
      ensures First(bits, l) + bits[l] < Pow2(l) <==> Kraft(bits, l) < Pow2(16)
    {
      KraftIsLast(bits, l);
      Pow2Add(l, 16 - l);
      ScaleLess(First(bits, l) + bits[l], Pow2(l), Pow2(16 - l));
    }
    forall l | 1 <= l <= 16 && Kraft(bits, 16) < Pow2(16) ensures Kraft(bits, l) < Pow2(16) {
      KraftMono(bits, l, 16);
    }
  }

  // ----- prefix freedom -----

  /** First(m) starts at or after the successors of all codes of length l, put in m bits. */
  lemma {:induction false} FirstGrows(bits: seq<nat>, l: nat, m: nat)
    requires |bits| == 17 && 1 <= l < m <= 17
    ensures First(bits, m) >= (First(bits, l) + bits[l]) * Pow2(m - l)
    decreases m
  {
    var x := First(bits, l) + bits[l];
    if m == l + 1 {
      assert Pow2(1) == 2;
    } else {
      FirstGrows(bits, l, m - 1);
      assert Pow2(m - l) == 2 * Pow2(m - 1 - l);
      assert x * (2 * Pow2(m - 1 - l)) == 2 * (x * Pow2(m - 1 - l));
    }
  }

  lemma {:induction false} MulMono(a: nat, b: nat, p: nat)
    requires a <= b
    ensures a * p <= b * p
  {
  }

  /** Later codes are greater than every extension of an earlier one. */
  lemma {:induction false} CodesOrdered(bits: seq<nat>, p: nat, q: nat)
    requires |bits| == 17 && p < q < Total(bits)
    ensures var l, m := LengthAt(bits, p), LengthAt(bits, q);
      l <= m && CodeAt(bits, q) >= (CodeAt(bits, p) + 1) * Pow2(m - l)
  {
    hide First, Start, LengthAt, Pow2;
    LengthMono(bits, p, q);
    var l, m := LengthAt(bits, p), LengthAt(bits, q);
    var c := CodeAt(bits, p) + 1;
    if l == m {
      PowZero(c);
    } else {
      FirstGrows(bits, l, m);
      MulMono(c, First(bits, l) + bits[l], Pow2(m - l));
    }
  }

  lemma {:induction false} ExtensionsDiffer(a: nat, b: nat, n: nat)
    requires b >= (a + 1) * Pow2(n)
    ensures ShiftRight(b, n) != a
  {
    hide Pow2, ShiftRight;
  }

  lemma {:induction false} NoShift(b: nat)
    ensures ShiftRight(b, 0) == b
  {
    assert Pow2(0) == 1;
  }

  lemma {:induction false} NotAllOnes(bits: seq<nat>, p: nat)
    requires |bits| == 17 && FitsUpTo(bits, 16) && p < Total(bits)
    ensures CodeAt(bits, p) + 1 < Pow2(LengthAt(bits, p))
  {
    var l := LengthAt(bits, p);
    assert First(bits, l) + bits[l] < Pow2(l);
    hide First, Start, LengthAt, Pow2;
  }

  /** No code is a prefix of another one, and none is all ones. */
  lemma {:induction false} PrefixFree(bits: seq<nat>, p: nat, q: nat)
    requires |bits| == 17 && FitsUpTo(bits, 16) && p < Total(bits) && q < Total(bits)
    ensures CodeAt(bits, p) + 1 < Pow2(LengthAt(bits, p))
    ensures p != q && LengthAt(bits, p) <= LengthAt(bits, q) ==>
      ShiftRight(CodeAt(bits, q), LengthAt(bits, q) - LengthAt(bits, p)) != CodeAt(bits, p)
  {
    hide First, Start, LengthAt, ShiftRight, CodeAt, FitsUpTo, Pow2;
    NotAllOnes(bits, p);
    var l, m := LengthAt(bits, p), LengthAt(bits, q);
    if p < q {
      CodesOrdered(bits, p, q);
      ExtensionsDiffer(CodeAt(bits, p), CodeAt(bits, q), m - l);
    } else if q < p && l <= m {
      CodesOrdered(bits, q, p);
      NoShift(CodeAt(bits, q));
      PowZero(CodeAt(bits, q) + 1);
    }
  }

  lemma {:induction false} PowZero(a: nat)
    ensures a * Pow2(0) == a
  {
    assert Pow2(0) == 1;
  }

  // ----- the steps of Figure C.2 -----

  /** Nothing is shorter than l: the codes of length l start at 0. */
  lemma {:induction false} NoShorter(bits: seq<nat>, l: nat)
    requires |bits| == 17 && 1 <= l <= 17 && Start(bits, l) == 0
    ensures First(bits, l) == 0 && FitsUpTo(bits, l - 1)
  {
    if l > 1 {
      NoShorter(bits, l - 1);
    }
  }

  lemma {:induction false} BelowFirstLength(bits: seq<nat>, l: nat)
    requires |bits| == 17 && Total(bits) > 0 && l == LengthAt(bits, 0)
    ensures 1 <= l <= 16 && Start(bits, l) == 0 && First(bits, l) == 0 && FitsUpTo(bits, l - 1)
  {
    NoShorter(bits, l);
  }

  /** Once a length is used up, the next one starts at twice the next code. */
  lemma {:induction false} LengthEnds(bits: seq<nat>, p: nat, l: nat)
    requires |bits| == 17 && 1 <= l <= 16 && Start(bits, l) <= p <= Start(bits, l + 1) && p <= Total(bits)
    requires p < Total(bits) ==> LengthAt(bits, p) != l
    ensures p == Start(bits, l + 1) == Start(bits, l) + bits[l]
    ensures First(bits, l + 1) == 2 * (First(bits, l) + bits[l])
    ensures FitsUpTo(bits, l - 1) && First(bits, l) + bits[l] < Pow2(l) ==> FitsUpTo(bits, l)
    ensures FitsUpTo(bits, 16) ==> First(bits, l) + bits[l] < Pow2(l)
  {
    hide LengthAt;
    if p < Start(bits, l + 1) {
      LengthUnique(bits, p, l);
    }
  }

  /** No longer codes: the rest of the lengths fit too. */
  lemma {:induction false} RestFits(bits: seq<nat>, k: nat)
    requires |bits| == 17 && k <= 16 && FitsUpTo(bits, k) && Start(bits, k + 1) == Total(bits)
    ensures FitsUpTo(bits, 16)
    decreases 16 - k
  {
    hide Total, Start, First, Pow2;
    if k < 16 {
      NoneOfNext(bits, k);
      RestFits(bits, k + 1);
    }
  }

  lemma {:induction false} NoneOfNext(bits: seq<nat>, k: nat)
    requires |bits| == 17 && k < 16 && FitsUpTo(bits, k) && Start(bits, k + 1) == Total(bits)
    ensures FitsUpTo(bits, k + 1) && Start(bits, k + 2) == Total(bits)
  {
    hide Total, Start, First, Pow2;
    AtMostTotal(bits, k + 2);
    NextStart(bits, k + 1);
    FirstBelow(bits, k);
  }

  lemma {:induction false} NextStart(bits: seq<nat>, l: nat)
    requires |bits| == 17 && 1 <= l <= 16
    ensures Start(bits, l + 1) == Start(bits, l) + bits[l]
  {
  }

  /** If length k fits, the codes of length k + 1 start below 2^(k + 1). */
  lemma {:induction false} FirstBelow(bits: seq<nat>, k: nat)
    requires |bits| == 17 && k < 16 && FitsUpTo(bits, k)
    ensures First(bits, k + 1) < Pow2(k + 1)
  {
    if k > 0 {
      assert First(bits, k) + bits[k] < Pow2(k);
      FirstNext(bits, k);
      TwicePower(k);
      hide First, Pow2;
    }
  }

  lemma {:induction false} FirstNext(bits: seq<nat>, l: nat)
    requires |bits| == 17 && 1 <= l <= 16
    ensures First(bits, l + 1) == 2 * (First(bits, l) + bits[l])
  {
  }

  lemma {:induction false} TwicePower(n: nat)
    ensures Pow2(n + 1) == 2 * Pow2(n)
  {
  }

  // ----- the codes one after the other -----

  /** The first code is all zeros; each next one is one more, with as many zeros behind it as it is
      longer; and a table with bits[l] codes of length l has exactly that many. */
  lemma {:induction false} NextCode(bits: seq<nat>, p: nat)
    requires |bits| == 17 && p < Total(bits)
    ensures CodeAt(bits, 0) == 0
    ensures p + 1 < Total(bits) ==>
      && LengthAt(bits, p) <= LengthAt(bits, p + 1)
      && CodeAt(bits, p + 1) == (CodeAt(bits, p) + 1) * Pow2(LengthAt(bits, p + 1) - LengthAt(bits, p))
  {
    hide Start, First, Pow2, LengthAt;
    StartFirst(bits);
    var l, m := LengthAt(bits, 0), LengthAt(bits, p);
    StartMono(bits, 1, l);
    NoneShorter(bits, l);
    if p + 1 < Total(bits) {
      LengthMono(bits, p, p + 1);
      var n := LengthAt(bits, p + 1);
      if m < n {
        if p + 1 < Start(bits, m + 1) {
          LengthUnique(bits, p + 1, m);
        }
        StartMono(bits, m + 1, n);
        FirstAfter(bits, m, n);
      } else {
        OneAtZero();
      }
    }
  }

  lemma {:induction false} StartFirst(bits: seq<nat>)
    requires |bits| == 17
    ensures Start(bits, 1) == 0 && First(bits, 1) == 0
  {
  }

  lemma {:induction false} OneAtZero()
    ensures Pow2(0) == 1 && Pow2(1) == 2
  {
  }

  // No codes shorter than l.
  lemma {:induction false} NoneShorter(bits: seq<nat>, l: nat)
    requires |bits| == 17 && 1 <= l <= 16 && Start(bits, l) == 0
    ensures First(bits, l) == 0
    decreases l
  {
    if l > 1 {
      NoneShorter(bits, l - 1);
    }
  }

  // No codes of the lengths between m and n.
  lemma {:induction false} FirstAfter(bits: seq<nat>, m: nat, n: nat)
    requires |bits| == 17 && 1 <= m < n <= 16 && Start(bits, n) == Start(bits, m + 1)
    ensures First(bits, n) == (First(bits, m) + bits[m]) * Pow2(n - m)
    decreases n
  {
    hide Start, First, Pow2;
    LengthStep(bits, n);
    if n == m + 1 {
      OneAtZero();
    } else {
      StartMono(bits, m + 1, n - 1);
      FirstAfter(bits, m, n - 1);
      Doubled(n - 1 - m, First(bits, m) + bits[m]);
    }
  }

  lemma {:induction false} LengthStep(bits: seq<nat>, n: nat)
    requires |bits| == 17 && 2 <= n <= 16
    ensures First(bits, n) == 2 * (First(bits, n - 1) + bits[n - 1]) && Start(bits, n) == Start(bits, n - 1) + bits[n - 1]
  {
  }

  lemma {:induction false} Doubled(k: nat, a: nat)
    ensures 2 * (a * Pow2(k)) == a * Pow2(k + 1)
  {
    assert Pow2(k + 1) == 2 * Pow2(k);
  }

  /** The codes of length l are those at bits[l] places in a row. */
  lemma {:induction false} CodesOfLength(bits: seq<nat>, l: nat)
    requires |bits| == 17 && 1 <= l <= 16
    ensures Start(bits, l) + bits[l] == Start(bits, l + 1) <= Total(bits)
    ensures forall p: nat :: p < Total(bits) ==> (LengthAt(bits, p) == l <==> Start(bits, l) <= p < Start(bits, l) + bits[l])
  {
    StartMono(bits, l + 1, 17);
    forall p: nat | p < Total(bits) && Start(bits, l) <= p < Start(bits, l) + bits[l] ensures LengthAt(bits, p) == l {
      LengthUnique(bits, p, l);
    }
  }
}
