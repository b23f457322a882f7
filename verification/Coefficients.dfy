// Coefficient blocks, the two point transforms of successive approximation,
// and the magnitude coding shared by all Huffman scans.
module Coefficients {
  import opened Arith

  const DCTSIZE2: nat := 64
  const MAX_COEF_BITS: nat := 10

  // ----- zigzag order -----

  /** jpeg_natural_order: block position of the k-th zigzag element; the 16 entries past
      the end, which only corrupt data can reach, all name the last position. */
  function NaturalOrder(k: nat): (p: nat)
    ensures p < 64
  {
    if k < 8 then [0, 1, 8, 16, 9, 2, 3, 10][k]
    else if k < 16 then [17, 24, 32, 25, 18, 11, 4, 5][k - 8]
    else if k < 24 then [12, 19, 26, 33, 40, 48, 41, 34][k - 16]
    else if k < 32 then [27, 20, 13, 6, 7, 14, 21, 28][k - 24]
    else if k < 40 then [35, 42, 49, 56, 57, 50, 43, 36][k - 32]
    else if k < 48 then [29, 22, 15, 23, 30, 37, 44, 51][k - 40]
    else if k < 56 then [58, 59, 52, 45, 38, 31, 39, 46][k - 48]
    else if k < 64 then [53, 60, 61, 54, 47, 55, 62, 63][k - 56]
    else 63
  }

  /** The inverse table. */
  function ZigzagOf(k: nat): (p: nat)
    ensures p < 64
  {
    if k < 8 then [0, 1, 5, 6, 14, 15, 27, 28][k]
    else if k < 16 then [2, 4, 7, 13, 16, 26, 29, 42][k - 8]
    else if k < 24 then [3, 8, 12, 17, 25, 30, 41, 43][k - 16]
    else if k < 32 then [9, 11, 18, 24, 31, 40, 44, 53][k - 24]
    else if k < 40 then [10, 19, 23, 32, 39, 45, 52, 54][k - 32]
    else if k < 48 then [20, 22, 33, 38, 46, 51, 55, 60][k - 40]
    else if k < 56 then [21, 34, 37, 47, 50, 56, 59, 61][k - 48]
    else if k < 64 then [35, 36, 48, 49, 57, 58, 62, 63][k - 56]
    else 0
  }

  lemma {:induction false} NaturalOrderInverse(k: nat)
    requires k < 64
    ensures ZigzagOf(NaturalOrder(k)) == k && NaturalOrder(ZigzagOf(k)) == k
  {
    if k < 32 {
      InverseLow(k);
    } else {
      InverseHigh(k);
    }
  }

  lemma {:induction false} InverseLow(k: nat)
    requires k < 32
    ensures ZigzagOf(NaturalOrder(k)) == k && NaturalOrder(ZigzagOf(k)) == k
  {
    match k {
      case 0 => case 1 => case 2 => case 3 => case 4 => case 5 => case 6 => case 7 =>
      case 8 => case 9 => case 10 => case 11 => case 12 => case 13 => case 14 => case 15 =>
      case 16 => case 17 => case 18 => case 19 => case 20 => case 21 => case 22 => case 23 =>
      case 24 => case 25 => case 26 => case 27 => case 28 => case 29 => case 30 => case 31 =>
    }
  }

  lemma {:induction false} InverseHigh(k: nat)
    requires 32 <= k < 64
    ensures ZigzagOf(NaturalOrder(k)) == k && NaturalOrder(ZigzagOf(k)) == k
  {
    match k {
      case 32 => case 33 => case 34 => case 35 => case 36 => case 37 => case 38 => case 39 =>
      case 40 => case 41 => case 42 => case 43 => case 44 => case 45 => case 46 => case 47 =>
      case 48 => case 49 => case 50 => case 51 => case 52 => case 53 => case 54 => case 55 =>
      case 56 => case 57 => case 58 => case 59 => case 60 => case 61 => case 62 => case 63 =>
    }
  }

  /** What the coders need of the table: a permutation of 0..63 that fixes 0, padded with
      16 more copies of its last entry. */
  ghost predicate IsZigzag(order: seq<nat>) {
    && |order| == 80
    && order[0] == 0
    && (forall k :: 0 <= k < 64 ==> order[k] < 64)
    && (forall j, k :: 0 <= j < k < 64 ==> order[j] != order[k])
    && (forall k :: 64 <= k < 80 ==> order[k] == order[63])
  }

  function NaturalOrderTable(): seq<nat> {
    seq(80, k requires 0 <= k < 80 => NaturalOrder(k))
  }

  lemma {:induction false} NaturalOrderIsZigzag()
    ensures IsZigzag(NaturalOrderTable())
  {
    forall j, k | 0 <= j < k < 64 ensures NaturalOrderTable()[j] != NaturalOrderTable()[k] {
      NaturalOrderInverse(j);
      NaturalOrderInverse(k);
    }
  }

  /** Figure 5 of ITU-T T.81: from each position to the next the path goes up to the right along the
      even diagonals and down to the left along the odd ones, and turns at the edges. */
  predicate Walks(p: nat, q: nat) {
    var r, c := p / 8, p % 8;
    if (r + c) % 2 == 0 then
      if c == 7 then q == p + 8 else if r == 0 then q == p + 1 else q == p - 7
    else
      if r == 7 then q == p + 1 else if c == 0 then q == p + 8 else q == p + 7
  }

  lemma {:induction false} ZigzagWalk(k: nat)
    requires k < 63
    ensures NaturalOrder(0) == 0 && NaturalOrder(63) == 63 && Walks(NaturalOrder(k), NaturalOrder(k + 1))
  {
    if k < 16 {
      WalkFirst(k);
    } else if k < 32 {
      WalkSecond(k);
    } else if k < 48 {
      WalkThird(k);
    } else {
      WalkLast(k);
    }
  }

  lemma {:induction false} WalkFirst(k: nat)
    requires 0 <= k < 16
    ensures Walks(NaturalOrder(k), NaturalOrder(k + 1))
  {
    match k {
      case 0 => case 1 => case 2 => case 3 => case 4 => case 5 => case 6 => case 7 =>
      case 8 => case 9 => case 10 => case 11 => case 12 => case 13 => case 14 => case 15 =>
    }
  }

  lemma {:induction false} WalkSecond(k: nat)
    requires 16 <= k < 32
    ensures Walks(NaturalOrder(k), NaturalOrder(k + 1))
  {
    match k {
      case 16 => case 17 => case 18 => case 19 => case 20 => case 21 => case 22 => case 23 =>
      case 24 => case 25 => case 26 => case 27 => case 28 => case 29 => case 30 => case 31 =>
    }
  }

  lemma {:induction false} WalkThird(k: nat)
    requires 32 <= k < 48
    ensures Walks(NaturalOrder(k), NaturalOrder(k + 1))
  {
    match k {
      case 32 => case 33 => case 34 => case 35 => case 36 => case 37 => case 38 => case 39 =>
      case 40 => case 41 => case 42 => case 43 => case 44 => case 45 => case 46 => case 47 =>
    }
  }

  lemma {:induction false} WalkLast(k: nat)
    requires 48 <= k < 63
    ensures Walks(NaturalOrder(k), NaturalOrder(k + 1))
  {
    match k {
      case 48 => case 49 => case 50 => case 51 => case 52 => case 53 => case 54 => case 55 =>
      case 56 => case 57 => case 58 => case 59 => case 60 => case 61 => case 62 =>
    }
  }

  /** A block read in zigzag order. */
  function Zig(block: seq<int>, order: seq<nat>): (z: seq<int>)
    requires |block| == 64 && |order| == 80 && forall k :: 0 <= k < 64 ==> order[k] < 64
    ensures |z| == 64 && forall k :: 0 <= k < 64 ==> z[k] == block[order[k]]
  {
    seq(64, k requires 0 <= k < 64 => block[order[k]])
  }

  /** Zigzag index that a store through the padded table really hits. */
  function Clamp(k: nat): nat {
    if k < 64 then k else 63
  }

  lemma {:induction false} ZigUpdate(block: seq<int>, order: seq<nat>, k: nat, v: int)
    requires |block| == 64 && IsZigzag(order) && k < 80
    ensures order[k] < 64
    ensures Zig(block[order[k] := v], order) == Zig(block, order)[Clamp(k) := v]
  {
    assert order[k] == order[Clamp(k)];
    var l, r := Zig(block[order[k] := v], order), Zig(block, order)[Clamp(k) := v];
    forall j | 0 <= j < 64 ensures l[j] == r[j] {
      if j < Clamp(k) {
        assert order[j] != order[Clamp(k)];
      } else if Clamp(k) < j {
        assert order[Clamp(k)] != order[j];
      }
    }
  }

  // ----- blocks as stored, in natural order -----

  ghost predicate Fits(block: array<int>, order: seq<nat>)
  {
    block.Length == 64 && IsZigzag(order)
  }

  ghost function View(block: array<int>, order: seq<nat>): (z: seq<int>)
    requires Fits(block, order)
    reads block
    ensures |z| == 64
  {
    Zig(block[..], order)
  }

  ghost function ViewAll(blocks: seq<array<int>>, order: seq<nat>): (zs: seq<seq<int>>)
    requires IsZigzag(order) && forall i :: 0 <= i < |blocks| ==> blocks[i].Length == 64
    reads set i | 0 <= i < |blocks| :: blocks[i]
    ensures |zs| == |blocks| && forall i :: 0 <= i < |zs| ==> |zs[i]| == 64 && zs[i] == View(blocks[i], order)
  {
    if blocks == [] then [] else [View(blocks[0], order)] + ViewAll(blocks[1..], order)
  }

  /** A store through the padded natural-order table. */
  method Store(block: array<int>, order: seq<nat>, k: nat, v: int)
    requires Fits(block, order) && k < 80
    modifies block
    ensures View(block, order) == old(View(block, order))[Clamp(k) := v]
    ensures block[..] == old(block[..])[order[Clamp(k)] := v]
  {
    ZigUpdate(block[..], order, k, v);
    block[order[k]] := v;
    assert block[..] == old(block[..])[order[k] := v];
  }

  // ----- point transforms -----

  function Abs(v: int): nat {
    if v < 0 then -v else v
  }

  /** The magnitude after a right shift by al. */
  function Magnitude(v: int, al: nat): nat {
    ShiftRight(Abs(v), al)
  }

  /** AC point transform: magnitude shift that keeps the sign. */
  function AcPoint(v: int, al: nat): int {
    var m: int := Magnitude(v, al);
    if v < 0 then -m else m
  }

  /** What a decoder shows of an AC coefficient known down to bit al. */
  function AcShown(v: int, al: nat): int {
    AcPoint(v, al) * Pow2(al)
  }

  /** DC point transform: arithmetic right shift, that is, floor division. */
  function DcPoint(v: int, al: nat): int {
    v / Pow2(al)
  }

  function DcShown(v: int, al: nat): int {
    DcPoint(v, al) * Pow2(al)
  }

  lemma {:induction false} ShownExact(v: int)
    ensures AcShown(v, 0) == v && DcShown(v, 0) == v
  {
  }

  // ----- magnitude coding (sections F.1.2 and F.2.2 of ITU-T T.81) -----

  /** The low n bits of v, or of v - 1 when v is negative. */
  function MagnitudeBits(v: int, n: nat): (m: nat)
    ensures m < Pow2(n)
  {
    (if v < 0 then v - 1 else v) % Pow2(n)
  }

  /** HUFF_EXTEND, Figure F.12. */
  function HuffExtend(x: int, s: nat): int
    requires s >= 1
  {
    if x < Pow2(s - 1) then x - Pow2(s) + 1 else x
  }

  /** Extending the bits sent for a value gives the value back. */
  lemma {:induction false} MagnitudeRoundTrip(v: int)
    requires v != 0
    ensures NBits(Abs(v)) >= 1
    ensures HuffExtend(MagnitudeBits(v, NBits(Abs(v))), NBits(Abs(v))) == v
  {
    var n := NBits(Abs(v));
    NBitsRange(Abs(v));
    assert Pow2(n) == 2 * Pow2(n - 1);
    if v < 0 {
      DivUnique(v - 1, Pow2(n), -1, v - 1 + Pow2(n));
    } else {
      DivUnique(v, Pow2(n), 0, v);
    }
  }
}
