// The imperative encoder and decoder run back to back over a whole AC scan.
module ProgressiveRoundTrip {
  import opened Coefficients
  import opened Tokens
  import opened AcRefine
  import opened AcFirst
  import opened AcEmissions
  import opened ProgressiveDecoder
  import AC = AcScan
  import E = ProgressiveEncoder

  lemma {:induction false} PassBytes(b: Band, xs: seq<AC.Pair>, interval: nat)
    requires AC.AllOk(b, xs)
    ensures ByteSymbols(AC.PassTokens(b, AC.Zs(xs), interval))
  {
    var ts := AC.PassTokens(b, AC.Zs(xs), interval);
    PassRegular(b, xs, interval);
    hide AC.PassTokens, AC.Zs;
    forall i | 0 <= i < |ts| && ts[i].Sym? ensures ts[i].s < 256 {
      assert Regular(b.tbl, ts[i]);
    }
  }

  ghost function Pairs(source: seq<array<int>>, target: seq<array<int>>, order: seq<nat>): (xs: seq<AC.Pair>)
    requires IsZigzag(order) && |source| == |target|
    requires forall i :: 0 <= i < |source| ==> source[i].Length == 64 && target[i].Length == 64
    reads set i | 0 <= i < |source| :: source[i]
    reads set i | 0 <= i < |target| :: target[i]
    ensures |xs| == |source| && AC.Zs(xs) == ViewAll(source, order) && AC.Ds(xs) == ViewAll(target, order)
  {
    var zs, ds := ViewAll(source, order), ViewAll(target, order);
    seq(|source|, i requires 0 <= i < |source| => AC.Pair(zs[i], ds[i]))
  }

  lemma {:induction false} PairsInRange(b: Band, source: seq<array<int>>, target: seq<array<int>>, order: seq<nat>)
    requires BandOk(b) && IsZigzag(order) && |source| == |target|
    requires forall i :: 0 <= i < |source| ==> source[i].Length == 64 && target[i].Length == 64
    requires AC.AllOk(b, Pairs(source, target, order)) && b.ah == 0
    ensures forall i :: 0 <= i < |source| ==> InRange(b, View(source[i], order))
  {
    var xs := Pairs(source, target, order);
    forall i | 0 <= i < |source| ensures InRange(b, View(source[i], order)) {
      assert AC.PairOk(b, xs[i]);
      assert AC.Zs(xs)[i] == xs[i].z;
      hide InRange, View;
    }
  }

  /** Main result for the running code: one AC scan, encoded from one set of blocks and
      decoded into another, brings every block of the target to bit al of its source. */
  method EncodeThenDecode(b: Band, interval: nat, source: seq<array<int>>, target: seq<array<int>>, order: seq<nat>)
    returns (ok: bool, verdict: Verdict)
    requires BandOk(b) && IsZigzag(order) && |source| == |target|
    requires forall i :: 0 <= i < |source| ==> source[i].Length == 64 && target[i].Length == 64
    requires forall i, j :: 0 <= i < j < |target| ==> target[i] != target[j]
    requires AC.AllOk(b, Pairs(source, target, order))
    modifies set i | 0 <= i < |target| :: target[i]
    ensures ok && verdict == Done
    ensures ViewAll(target, order) == old(AC.NewAll(b, Pairs(source, target, order)))
  {
    hide View, IsZigzag, AC.PassTokens, AC.DecodePass, AC.NewAll, AC.PairOk, InRange, ByteSymbols, RunOk, Pairs, ViewAll, AC.AllOk, AC.Zs, AC.Ds, BandOk;
    ghost var xs := Pairs(source, target, order);
    if b.ah == 0 {
      PairsInRange(b, source, target, order);
    }
    var encoder := new E.Encoder(b, false, interval);
    ok := encoder.EncodeScan(source, order);
    verdict := Done;
    if ok {
      PassBytes(b, xs, interval);
      AC.PassDecodes(b, xs, interval);
      var decoder := new Decoder(b, interval);
      decoder.input := encoder.out;
      verdict := decoder.DecodeScan(target, order);
    }
  }
}
