// A whole progressive image: for every scan script the compressor accepts, encoding the
// scans and decoding them in order leaves each coefficient equal to its point transform at
// the last bit position sent for it.
module ProgressiveImage {
  import opened Arith
  import opened Coefficients
  import opened Tokens
  import opened AcRefine
  import opened AcFirst
  import AC = AcScan
  import DC = DcScan
  import opened ScanScript

  /** Coefficients by component, block and zigzag position. */
  type Image = seq<seq<seq<int>>>

  /** A scan of the script with what the frame adds to it: for a DC scan the blocks of each
      MCU as (component of the scan, block number), the restart interval, and the Huffman
      table of each scan component. */
  datatype Pass = Pass(info: ScanInfo, layout: seq<seq<(nat, nat)>>, interval: nat, tbls: seq<nat>)

  ghost predicate SameShape(img: Image, dec: Image) {
    && |dec| == |img|
    && (forall c :: 0 <= c < |img| ==> |dec[c]| == |img[c]|)
    && Sized(img) && Sized(dec)
  }

  /** 8-bit data: DC values in -1024..1023, AC magnitudes of at most 10 bits. */
  ghost predicate BlockInRange(z: seq<int>) {
    && |z| == 64 && -1024 <= z[0] <= 1023
    && forall k :: 1 <= k < 64 ==> -1023 <= z[k] <= 1023
  }

  ghost predicate ImageOk(img: Image) {
    forall c, i :: 0 <= c < |img| && 0 <= i < |img[c]| ==> BlockInRange(img[c][i])
  }

  ghost predicate RefOk(img: Image, p: Pass, r: (nat, nat)) {
    && r.0 < |p.info.comps| && 0 <= p.info.comps[r.0] < |img| && r.1 < |img[p.info.comps[r.0]]|
  }

  ghost predicate Visits(p: Pass, r: (nat, nat)) {
    exists m, i :: 0 <= m < |p.layout| && 0 <= i < |p.layout[m]| && p.layout[m][i] == r
  }

  /** The MCUs of a DC scan visit every block of the scan's components, and none twice. */
  ghost predicate LayoutOk(img: Image, p: Pass) {
    && (forall m, i :: 0 <= m < |p.layout| && 0 <= i < |p.layout[m]| ==> RefOk(img, p, p.layout[m][i]))
    && (forall r :: RefOk(img, p, r) ==> Visits(p, r))
    && (forall m, i, m', i' | 0 <= m < |p.layout| && 0 <= i < |p.layout[m]| && 0 <= m' < |p.layout| && 0 <= i' < |p.layout[m']|
        :: p.layout[m][i] == p.layout[m'][i'] ==> m == m' && i == i')
  }

  ghost predicate PassOk(img: Image, p: Pass) {
    && CompsOk(p.info, |img|) && ParamsOk(p.info) && |p.tbls| == |p.info.comps|
    && (p.info.ss == 0 ==> LayoutOk(img, p))
  }

  function ToDc(p: Pass): DC.DcBand
    requires ParamsOk(p.info)
  {
    DC.DcBand(p.info.ah, p.info.al, p.tbls)
  }

  function ToBand(p: Pass): (b: Band)
    requires ParamsOk(p.info) && p.info.ss > 0 && |p.tbls| == 1
    ensures BandOk(b)
  {
    Band(p.info.ss, p.info.se, p.info.ah, p.info.al, Ac(p.tbls[0]))
  }

  // ----- encoding -----

  function McuVisits(img: Image, p: Pass, m: nat): seq<DC.Visit>
    requires m < |p.layout| && forall i :: 0 <= i < |p.layout[m]| ==> RefOk(img, p, p.layout[m][i])
    requires forall c, i :: 0 <= c < |img| && 0 <= i < |img[c]| ==> |img[c][i]| == 64
  {
    seq(|p.layout[m]|, i requires 0 <= i < |p.layout[m]| =>
      var r := p.layout[m][i]; assert RefOk(img, p, r); DC.Visit(r.0, img[p.info.comps[r.0]][r.1][0]))
  }

  ghost predicate Sized(img: Image) {
    forall c, i :: 0 <= c < |img| && 0 <= i < |img[c]| ==> |img[c][i]| == 64
  }

  function DcVisits(img: Image, p: Pass): (vs: seq<seq<DC.Visit>>)
    requires PassOk(img, p) && p.info.ss == 0 && Sized(img)
    ensures |vs| == |p.layout| && forall m :: 0 <= m < |vs| ==> vs[m] == McuVisits(img, p, m) && DC.VisitsOk(ToDc(p), vs[m])
  {
    seq(|p.layout|, m requires 0 <= m < |p.layout| => McuVisits(img, p, m))
  }

  function EncodePass(img: Image, p: Pass): seq<Token>
    requires PassOk(img, p) && Sized(img)
  {
    if p.info.ss == 0 then DC.PassTokens(ToDc(p), DcVisits(img, p), p.interval)
    else AC.PassTokens(ToBand(p), img[p.info.comps[0]], p.interval)
  }

  // ----- decoding -----

  function McuSlots(dec: Image, p: Pass, m: nat): seq<DC.Slot>
    requires m < |p.layout| && forall i :: 0 <= i < |p.layout[m]| ==> RefOk(dec, p, p.layout[m][i])
    requires Sized(dec)
  {
    seq(|p.layout[m]|, i requires 0 <= i < |p.layout[m]| =>
      var r := p.layout[m][i]; assert RefOk(dec, p, r); DC.Slot(r.0, dec[p.info.comps[r.0]][r.1][0]))
  }

  function DcSlots(dec: Image, p: Pass): (ss: seq<seq<DC.Slot>>)
    requires PassOk(dec, p) && p.info.ss == 0 && Sized(dec)
    ensures |ss| == |p.layout| && forall m :: 0 <= m < |ss| ==> ss[m] == McuSlots(dec, p, m) && DC.SlotsOk(ToDc(p), ss[m])
  {
    seq(|p.layout|, m requires 0 <= m < |p.layout| => McuSlots(dec, p, m))
  }

  function StoreDc(dec: Image, c: nat, i: nat, v: int): (out: Image)
    requires c < |dec| && i < |dec[c]| && |dec[c][i]| == 64
  {
    dec[c := dec[c][i := dec[c][i][0 := v]]]
  }

  /** The decoded DC values of one MCU go to their blocks. */
  function StoreMcu(dec: Image, p: Pass, refs: seq<(nat, nat)>, vals: seq<int>): (out: Image)
    requires Sized(dec) && |vals| == |refs| && forall i :: 0 <= i < |refs| ==> RefOk(dec, p, refs[i])
    ensures Sized(out) && |out| == |dec| && forall c :: 0 <= c < |dec| ==> |out[c]| == |dec[c]|
    decreases |refs|
  {
    if refs == [] then dec
    else
      assert RefOk(dec, p, refs[0]);
      var d1 := StoreDc(dec, p.info.comps[refs[0].0], refs[0].1, vals[0]);
      assert forall i :: 0 <= i < |refs| ==> RefOk(dec, p, refs[i]) ==> RefOk(d1, p, refs[i]);
      StoreMcu(d1, p, refs[1..], vals[1..])
  }

  function StoreMcus(dec: Image, p: Pass, layout: seq<seq<(nat, nat)>>, vals: seq<seq<int>>): (out: Image)
    requires Sized(dec) && |vals| == |layout|
    requires forall m :: 0 <= m < |layout| ==> |vals[m]| == |layout[m]|
    requires forall m, i :: 0 <= m < |layout| && 0 <= i < |layout[m]| ==> RefOk(dec, p, layout[m][i])
    ensures Sized(out) && |out| == |dec| && forall c :: 0 <= c < |dec| ==> |out[c]| == |dec[c]|
    decreases |layout|
  {
    if layout == [] then dec
    else
      var d1 := StoreMcu(dec, p, layout[0], vals[0]);
      assert forall m, i :: 0 <= m < |layout| && 0 <= i < |layout[m]| ==> RefOk(dec, p, layout[m][i]) ==> RefOk(d1, p, layout[m][i]);
      StoreMcus(d1, p, layout[1..], vals[1..])
  }

  datatype PassOut = Good(img: Image) | Bad

  predicate ValuesFit(layout: seq<seq<(nat, nat)>>, vals: seq<seq<int>>) {
    |vals| == |layout| && forall m :: 0 <= m < |layout| ==> |vals[m]| == |layout[m]|
  }

  predicate BlocksFit(ds: seq<seq<int>>, blocks: seq<seq<int>>) {
    |blocks| == |ds| && forall i :: 0 <= i < |blocks| ==> |blocks[i]| == 64
  }

  function DecodePass(dec: Image, p: Pass, ts: seq<Token>): (o: PassOut)
    requires PassOk(dec, p) && Sized(dec)
    ensures o.Good? ==> SameShape(dec, o.img)
  {
    if p.info.ss == 0 then
      match DC.DecodePass(ToDc(p), ts, DcSlots(dec, p), p.interval)
      case Decoded(vals, rest) =>
        if rest == [] && ValuesFit(p.layout, vals) then Good(StoreMcus(dec, p, p.layout, vals)) else Bad
      case Failed => Bad
    else
      var c := p.info.comps[0];
      match AC.DecodePass(ToBand(p), ts, dec[c], p.interval)
      case Decoded(blocks, rest) =>
        if rest == [] && BlocksFit(dec[c], blocks) then Good(dec[c := blocks]) else Bad
      case Failed => Bad
  }

  lemma {:induction false} PassOkShape(img: Image, dec: Image, p: Pass)
    requires PassOk(img, p) && SameShape(img, dec)
    ensures PassOk(dec, p)
  {
    if p.info.ss == 0 {
      forall m, i | 0 <= m < |p.layout| && 0 <= i < |p.layout[m]| ensures RefOk(dec, p, p.layout[m][i]) {
        assert RefOk(img, p, p.layout[m][i]);
      }
      forall r | RefOk(dec, p, r) ensures Visits(p, r) {
        assert RefOk(img, p, r);
      }
    }
  }

  ghost predicate PassesOk(img: Image, ps: seq<Pass>) {
    forall i :: 0 <= i < |ps| ==> PassOk(img, ps[i])
  }

  /** The scans of a file, one token stream each. */
  function EncodeAll(img: Image, ps: seq<Pass>): (tss: seq<seq<Token>>)
    requires PassesOk(img, ps) && Sized(img)
    ensures |tss| == |ps|
  {
    seq(|ps|, i requires 0 <= i < |ps| => EncodePass(img, ps[i]))
  }

  /** Decoding the first n scans, from a decoder image of zeros. */
  function DecodeFirst(dec: Image, ps: seq<Pass>, tss: seq<seq<Token>>, n: nat): (o: PassOut)
    requires PassesOk(dec, ps) && Sized(dec) && |tss| == |ps| && n <= |ps|
    ensures o.Good? ==> SameShape(dec, o.img)
  {
    if n == 0 then Good(dec)
    else match DecodeFirst(dec, ps, tss, n - 1)
      case Bad => Bad
      case Good(d) =>
        PassOkShape(dec, d, ps[n - 1]);
        DecodePass(d, ps[n - 1], tss[n - 1])
  }

  // ----- what the decoder shows -----

  function Infos(ps: seq<Pass>): (scans: seq<ScanInfo>)
    ensures |scans| == |ps| && forall i :: 0 <= i < |ps| ==> scans[i] == ps[i].info
  {
    seq(|ps|, i requires 0 <= i < |ps| => ps[i].info)
  }

  /** Point transform at bit position al, scaled back; zero if nothing was sent. */
  function Expected(v: int, k: nat, al: int): int {
    if al < 0 then 0 else if k == 0 then DcShown(v, al) else AcShown(v, al)
  }

  /** dec shows img to the last bit position of each coefficient in the first n scans. */
  ghost predicate Shows(img: Image, dec: Image, scans: seq<ScanInfo>, n: nat)
    requires n <= |scans|
  {
    && SameShape(img, dec)
    && forall c, i, k | 0 <= c < |img| && 0 <= i < |img[c]| && 0 <= k < 64 ::
         dec[c][i][k] == Expected(img[c][i][k], k, LastAl(scans, n, c, k))
  }

  function Blank(img: Image): (dec: Image)
    requires Sized(img)
    ensures SameShape(img, dec)
    ensures forall c, i, k | 0 <= c < |img| && 0 <= i < |img[c]| && 0 <= k < 64 :: dec[c][i][k] == 0
  {
    var zero: seq<int> := seq(64, _ => 0);
    seq(|img|, c requires 0 <= c < |img| => seq(|img[c]|, _ => zero))
  }

  // ----- AC scans -----

  function Zip(zs: seq<seq<int>>, ds: seq<seq<int>>): (xs: seq<AC.Pair>)
    requires |zs| == |ds|
    ensures AC.Zs(xs) == zs && AC.Ds(xs) == ds
  {
    seq(|zs|, i requires 0 <= i < |zs| => AC.Pair(zs[i], ds[i]))
  }

  lemma {:induction false} AcInRange(b: Band, z: seq<int>)
    requires BandOk(b) && BlockInRange(z)
    ensures InRange(b, z)
  {
    forall k | b.ss <= k <= b.se ensures NBits(Abs(AcPoint(z[k], b.al))) <= MAX_COEF_BITS {
      var m := Magnitude(z[k], b.al);
      assert Abs(AcPoint(z[k], b.al)) == m;
      MagnitudeShrinks(z[k], b.al);
      Pow2Values();
      NBitsBound(m, MAX_COEF_BITS);
    }
  }

  lemma {:induction false} MagnitudeShrinks(v: int, al: nat)
    ensures Magnitude(v, al) <= Abs(v)
  {
    var m := Magnitude(v, al);
    assert m * Pow2(al) <= Abs(v);
    if m > 0 {
      MulAtLeast(Pow2(al), m);
    }
  }

  /** Every block of the component is ready for the scan. */
  lemma {:induction false} AcReady(img: Image, dec: Image, ps: seq<Pass>, n: nat, i: nat)
    requires ImageOk(img) && PassesOk(img, ps) && n < |ps| && ps[n].info.ss > 0
    requires ProgressiveOk(Infos(ps), |img|) && Shows(img, dec, Infos(ps), n)
    requires i < |img[ps[n].info.comps[0]]|
    ensures var c := ps[n].info.comps[0]; AC.PairOk(ToBand(ps[n]), AC.Pair(img[c][i], dec[c][i]))
  {
    var p, scans := ps[n], Infos(ps);
    var b, c := ToBand(p), p.info.comps[0];
    assert BlockInRange(img[c][i]);
    AcInRange(b, img[c][i]);
    forall k | b.ss <= k <= b.se
      ensures if b.ah == 0 then dec[c][i][k] == 0 else dec[c][i][k] == AcShown(img[c][i][k], b.al + 1)
    {
      assert Covers(scans[n], c, k);
      AcceptedStep(scans, |img|, n, c, k);
      assert dec[c][i][k] == Expected(img[c][i][k], k, LastAl(scans, n, c, k));
    }
  }

  lemma {:induction false} AcStep(img: Image, dec: Image, ps: seq<Pass>, n: nat)
    requires ImageOk(img) && PassesOk(img, ps) && n < |ps| && ps[n].info.ss > 0
    requires ProgressiveOk(Infos(ps), |img|) && Shows(img, dec, Infos(ps), n)
    ensures PassOk(dec, ps[n])
    ensures var o := DecodePass(dec, ps[n], EncodePass(img, ps[n])); o.Good? && Shows(img, o.img, Infos(ps), n + 1)
  {
    var p, scans := ps[n], Infos(ps);
    var b, c := ToBand(p), p.info.comps[0];
    PassOkShape(img, dec, p);
    var xs := Zip(img[c], dec[c]);
    forall i | 0 <= i < |xs| ensures AC.PairOk(b, xs[i]) {
      AcReady(img, dec, ps, n, i);
    }
    AC.PassDecodes(b, xs, p.interval);
    var o := DecodePass(dec, p, EncodePass(img, p));
    assert o == Good(dec[c := AC.NewAll(b, xs)]) by {
      hide AC.DecodePass, AC.PassTokens, AC.New, AC.PairOk;
    }
    forall c', i, k | 0 <= c' < |img| && 0 <= i < |img[c']| && 0 <= k < 64
      ensures o.img[c'][i][k] == Expected(img[c'][i][k], k, LastAl(scans, n + 1, c', k))
    {
      assert dec[c'][i][k] == Expected(img[c'][i][k], k, LastAl(scans, n, c', k));
      if Covers(scans[n], c', k) {
        AcceptedStep(scans, |img|, n, c', k);
      }
      if c' == c {
        assert AC.PairOk(b, xs[i]);
        AC.NewShows(b, xs[i], k);
      }
      hide AC.DecodePass, AC.PassTokens, AC.New, AC.PairOk, DecodePass, EncodePass;
    }
  }

  // ----- DC scans -----

  /** out is dec with the DC value of every block in `done` replaced by the one img shows at al. */
  ghost predicate Stored(img: Image, p: Pass, dec: Image, out: Image, done: set<(nat, nat)>)
    requires ParamsOk(p.info)
  {
    && SameShape(img, dec) && SameShape(img, out)
    && forall c, i, k | 0 <= c < |img| && 0 <= i < |img[c]| && 0 <= k < 64 ::
         out[c][i][k] == if k == 0 && (c, i) in done then DcShown(img[c][i][0], p.info.al) else dec[c][i][k]
  }

  function Target(p: Pass, r: (nat, nat)): (nat, nat)
    requires r.0 < |p.info.comps| && p.info.comps[r.0] >= 0
  {
    (p.info.comps[r.0], r.1)
  }

  /** The blocks a list of references names. */
  ghost function Targets(p: Pass, refs: seq<(nat, nat)>): set<(nat, nat)>
    requires forall i :: 0 <= i < |refs| ==> refs[i].0 < |p.info.comps| && p.info.comps[refs[i].0] >= 0
  {
    set i | 0 <= i < |refs| :: Target(p, refs[i])
  }

  function DcOf(img: Image, p: Pass, r: (nat, nat)): int
    requires RefOk(img, p, r) && Sized(img)
  {
    img[p.info.comps[r.0]][r.1][0]
  }

  lemma {:induction false} StoreMcuStores(img: Image, p: Pass, dec: Image, cur: Image, done: set<(nat, nat)>,
                                          refs: seq<(nat, nat)>, vals: seq<int>)
    requires ParamsOk(p.info) && Stored(img, p, dec, cur, done) && |vals| == |refs|
    requires forall i :: 0 <= i < |refs| ==>
      RefOk(img, p, refs[i]) && RefOk(cur, p, refs[i]) && vals[i] == DcShown(DcOf(img, p, refs[i]), p.info.al)
    ensures Stored(img, p, dec, StoreMcu(cur, p, refs, vals), done + Targets(p, refs))
    decreases |refs|
  {
    hide DcShown;
    if refs == [] {
      assert done + Targets(p, refs) == done;
    } else {
      assert RefOk(img, p, refs[0]) && RefOk(cur, p, refs[0]);
      var c, i := p.info.comps[refs[0].0], refs[0].1;
      var d1 := StoreDc(cur, c, i, vals[0]);
      assert Stored(img, p, dec, d1, done + {(c, i)});
      forall j | 0 <= j < |refs| ensures RefOk(d1, p, refs[j]) {
        assert RefOk(cur, p, refs[j]);
      }
      StoreMcuStores(img, p, dec, d1, done + {(c, i)}, refs[1..], vals[1..]);
      var later, all := Targets(p, refs[1..]), Targets(p, refs);
      assert all == {(c, i)} + later by {
        assert Target(p, refs[0]) == (c, i);
        forall x | x in all ensures x in {(c, i)} + later {
          var j :| 0 <= j < |refs| && x == Target(p, refs[j]);
          if j > 0 {
            assert Target(p, refs[1..][j - 1]) in later;
          }
        }
        forall x | x in later ensures x in all {
          var j :| 0 <= j < |refs[1..]| && x == Target(p, refs[1..][j]);
          assert Target(p, refs[j + 1]) in all;
        }
      }
      assert (done + {(c, i)}) + later == done + all;
    }
  }

  ghost predicate McusFit(img: Image, p: Pass, cur: Image, layout: seq<seq<(nat, nat)>>, vals: seq<seq<int>>)
    requires ParamsOk(p.info) && Sized(img)
  {
    && ValuesFit(layout, vals)
    && forall m, i :: 0 <= m < |layout| && 0 <= i < |layout[m]| ==>
      RefOk(img, p, layout[m][i]) && RefOk(cur, p, layout[m][i])
      && vals[m][i] == DcShown(DcOf(img, p, layout[m][i]), p.info.al)
  }

  lemma {:induction false} StoreMcusStores(img: Image, p: Pass, dec: Image, cur: Image, done: set<(nat, nat)>,
                                           layout: seq<seq<(nat, nat)>>, vals: seq<seq<int>>)
    returns (all: set<(nat, nat)>)
    requires ParamsOk(p.info) && Stored(img, p, dec, cur, done) && McusFit(img, p, cur, layout, vals)
    ensures Stored(img, p, dec, StoreMcus(cur, p, layout, vals), all) && done <= all
    ensures forall m, i :: 0 <= m < |layout| && 0 <= i < |layout[m]| ==> Target(p, layout[m][i]) in all
    ensures forall x :: x in all ==> x in done || exists m, i :: 0 <= m < |layout| && 0 <= i < |layout[m]| && x == Target(p, layout[m][i])
    decreases |layout|
  {
    hide DcShown;
    if layout == [] {
      all := done;
    } else {
      StoreMcuStores(img, p, dec, cur, done, layout[0], vals[0]);
      var d1, done1 := StoreMcu(cur, p, layout[0], vals[0]), done + Targets(p, layout[0]);
      assert McusFit(img, p, d1, layout[1..], vals[1..]) by {
        forall m, i | 0 <= m < |layout[1..]| && 0 <= i < |layout[1..][m]|
          ensures RefOk(img, p, layout[1..][m][i]) && RefOk(d1, p, layout[1..][m][i])
               && vals[1..][m][i] == DcShown(DcOf(img, p, layout[1..][m][i]), p.info.al)
        {
          assert layout[1..][m][i] == layout[m + 1][i];
        }
      }
      all := StoreMcusStores(img, p, dec, d1, done1, layout[1..], vals[1..]);
      forall m, i | 0 <= m < |layout| && 0 <= i < |layout[m]| ensures Target(p, layout[m][i]) in all {
        if m == 0 {
          assert Target(p, layout[0][i]) in Targets(p, layout[0]);
        } else {
          assert Target(p, layout[1..][m - 1][i]) in all;
        }
      }
      forall x | x in all
        ensures x in done || exists m, i :: 0 <= m < |layout| && 0 <= i < |layout[m]| && x == Target(p, layout[m][i])
      {
        if x !in done1 {
          var m, i :| 0 <= m < |layout[1..]| && 0 <= i < |layout[1..][m]| && x == Target(p, layout[1..][m][i]);
          assert x == Target(p, layout[m + 1][i]);
        }
      }
    }
  }

  /** What the decoder must show of a DC value before the scan. */
  lemma {:induction false} DcReady(img: Image, dec: Image, ps: seq<Pass>, n: nat, r: (nat, nat))
    requires PassesOk(img, ps) && n < |ps| && ps[n].info.ss == 0
    requires ProgressiveOk(Infos(ps), |img|) && Shows(img, dec, Infos(ps), n) && RefOk(img, ps[n], r)
    ensures RefOk(dec, ps[n], r)
    ensures ps[n].info.ah != 0 ==> DcOf(dec, ps[n], r) == DcShown(DcOf(img, ps[n], r), ps[n].info.al + 1)
  {
    var scans, c := Infos(ps), ps[n].info.comps[r.0];
    assert Covers(scans[n], c, 0);
    AcceptedStep(scans, |img|, n, c, 0);
    assert dec[c][r.1][0] == Expected(img[c][r.1][0], 0, LastAl(scans, n, c, 0));
  }

  lemma {:induction false} DcMatches(img: Image, dec: Image, ps: seq<Pass>, n: nat)
    requires PassesOk(img, ps) && n < |ps| && ps[n].info.ss == 0
    requires ProgressiveOk(Infos(ps), |img|) && Shows(img, dec, Infos(ps), n)
    ensures PassOk(dec, ps[n])
    ensures DC.McusMatch(ToDc(ps[n]), DcVisits(img, ps[n]), DcSlots(dec, ps[n]))
  {
    var p, b := ps[n], ToDc(ps[n]);
    PassOkShape(img, dec, p);
    var vs, ss := DcVisits(img, p), DcSlots(dec, p);
    forall m | 0 <= m < |vs| ensures DC.McuOk(b, vs[m], ss[m]) {
      forall i | 0 <= i < |vs[m]|
        ensures ss[m][i].ci == vs[m][i].ci && (b.ah != 0 ==> ss[m][i].d == DcShown(vs[m][i].v, b.al + 1))
      {
        DcReady(img, dec, ps, n, p.layout[m][i]);
        hide DcShown;
      }
    }
  }

  lemma {:induction false} DcStep(img: Image, dec: Image, ps: seq<Pass>, n: nat)
    requires ImageOk(img) && PassesOk(img, ps) && n < |ps| && ps[n].info.ss == 0
    requires ProgressiveOk(Infos(ps), |img|) && Shows(img, dec, Infos(ps), n)
    ensures PassOk(dec, ps[n])
    ensures var o := DecodePass(dec, ps[n], EncodePass(img, ps[n])); o.Good? && Shows(img, o.img, Infos(ps), n + 1)
  {
    var p, b, scans := ps[n], ToDc(ps[n]), Infos(ps);
    DcMatches(img, dec, ps, n);
    var vs := DcVisits(img, p);
    DC.PassDecodes(b, vs, DcSlots(dec, p), p.interval);
    var vals := seq(|vs|, m requires 0 <= m < |vs| => DC.Shown(b, vs[m]));
    assert McusFit(img, p, dec, p.layout, vals) by {
      forall m, i | 0 <= m < |p.layout| && 0 <= i < |p.layout[m]|
        ensures RefOk(img, p, p.layout[m][i]) && RefOk(dec, p, p.layout[m][i])
             && vals[m][i] == DcShown(DcOf(img, p, p.layout[m][i]), p.info.al)
      {
        assert RefOk(img, p, p.layout[m][i]);
        hide DcShown;
      }
    }
    assert Stored(img, p, dec, dec, {});
    var all := StoreMcusStores(img, p, dec, dec, {}, p.layout, vals);
    var o := DecodePass(dec, p, EncodePass(img, p));
    assert o == Good(StoreMcus(dec, p, p.layout, vals)) by {
      hide DC.DecodePass, DC.PassTokens, DC.Shown, StoreMcus, DcVisits, DcSlots;
    }
    forall c, i, k | 0 <= c < |img| && 0 <= i < |img[c]| && 0 <= k < 64
      ensures o.img[c][i][k] == Expected(img[c][i][k], k, LastAl(scans, n + 1, c, k))
    {
      AllStored(img, dec, ps, n, all, c, i, k);
      hide DcShown, AcShown, DecodePass, EncodePass, StoreMcus;
    }
  }

  lemma {:induction false} AllStored(img: Image, dec: Image, ps: seq<Pass>, n: nat, all: set<(nat, nat)>, c: nat, i: nat, k: nat)
    requires PassesOk(img, ps) && n < |ps| && ps[n].info.ss == 0
    requires ProgressiveOk(Infos(ps), |img|) && Shows(img, dec, Infos(ps), n)
    requires c < |img| && i < |img[c]| && k < 64
    requires var p := ps[n];
      && (forall m, j :: 0 <= m < |p.layout| && 0 <= j < |p.layout[m]| ==> RefOk(img, p, p.layout[m][j]) && Target(p, p.layout[m][j]) in all)
      && (forall x :: x in all ==> exists m, j :: 0 <= m < |p.layout| && 0 <= j < |p.layout[m]| && RefOk(img, p, p.layout[m][j]) && x == Target(p, p.layout[m][j]))
    ensures var p := ps[n];
      Expected(img[c][i][k], k, LastAl(Infos(ps), n + 1, c, k))
      == if k == 0 && (c, i) in all then DcShown(img[c][i][0], p.info.al) else dec[c][i][k]
  {
    var p, scans := ps[n], Infos(ps);
    assert dec[c][i][k] == Expected(img[c][i][k], k, LastAl(scans, n, c, k));
    if Covers(scans[n], c, k) {
      AcceptedStep(scans, |img|, n, c, k);
      var ci: nat :| ci < |p.info.comps| && p.info.comps[ci] == c;
      assert RefOk(img, p, (ci, i));
      assert Visits(p, (ci, i));
    }
  }

  // ----- the theorem -----

  lemma {:induction false} PassStep(img: Image, dec: Image, ps: seq<Pass>, n: nat)
    requires ImageOk(img) && PassesOk(img, ps) && n < |ps|
    requires ProgressiveOk(Infos(ps), |img|) && Shows(img, dec, Infos(ps), n)
    ensures PassOk(dec, ps[n])
    ensures var o := DecodePass(dec, ps[n], EncodePass(img, ps[n])); o.Good? && Shows(img, o.img, Infos(ps), n + 1)
  {
    hide DecodePass, EncodePass, Shows;
    if ps[n].info.ss == 0 {
      DcStep(img, dec, ps, n);
    } else {
      AcStep(img, dec, ps, n);
    }
  }

  lemma {:induction false} DecodeFirstStep(blank: Image, ps: seq<Pass>, tss: seq<seq<Token>>, n: nat, d: Image)
    requires PassesOk(blank, ps) && Sized(blank) && |tss| == |ps| && 0 < n <= |ps| && PassOk(d, ps[n - 1])
    requires DecodeFirst(blank, ps, tss, n - 1) == Good(d)
    ensures DecodeFirst(blank, ps, tss, n) == DecodePass(d, ps[n - 1], tss[n - 1])
  {
    hide DecodePass;
  }

  lemma {:induction false} AllEncoded(img: Image, ps: seq<Pass>, n: nat)
    requires ImageOk(img) && Sized(img) && PassesOk(img, ps) && n < |ps|
    requires ValidScript(Infos(ps), |img|) && IsProgressive(Infos(ps))
    ensures ProgressiveOk(Infos(ps), |img|)
    ensures |EncodeAll(img, ps)| == |ps| && EncodeAll(img, ps)[n] == EncodePass(img, ps[n])
  {
    hide EncodePass;
  }

  /** Main result, scan by scan. */
  lemma {:induction false} ScriptDecodes(img: Image, ps: seq<Pass>, n: nat)
    requires ImageOk(img) && Sized(img) && PassesOk(img, ps) && n <= |ps|
    requires ValidScript(Infos(ps), |img|) && IsProgressive(Infos(ps))
    ensures PassesOk(Blank(img), ps)
    ensures var o := DecodeFirst(Blank(img), ps, EncodeAll(img, ps), n); o.Good? && Shows(img, o.img, Infos(ps), n)
  {
    hide EncodePass, DecodePass, Shows, ValidScript, IsProgressive, Infos, Blank, ImageOk, Sized, PassOk;
    BlankOk(img, ps);
    if n > 0 {
      AllEncoded(img, ps, n - 1);
      ScriptDecodes(img, ps, n - 1);
      var d := DecodeFirst(Blank(img), ps, EncodeAll(img, ps), n - 1).img;
      PassStep(img, d, ps, n - 1);
      DecodeFirstStep(Blank(img), ps, EncodeAll(img, ps), n, d);
    }
  }

  lemma {:induction false} BlankOk(img: Image, ps: seq<Pass>)
    requires Sized(img) && PassesOk(img, ps)
    ensures PassesOk(Blank(img), ps) && Shows(img, Blank(img), Infos(ps), 0)
  {
    forall i | 0 <= i < |ps| ensures PassOk(Blank(img), ps[i]) {
      PassOkShape(img, Blank(img), ps[i]);
    }
  }

  /** A coefficient last sent at bit position 0 comes out exactly. */
  lemma {:induction false} ExactWhenAlZero(img: Image, ps: seq<Pass>, c: nat, i: nat, k: nat)
    requires ImageOk(img) && Sized(img) && PassesOk(img, ps)
    requires ValidScript(Infos(ps), |img|) && IsProgressive(Infos(ps))
    requires c < |img| && i < |img[c]| && k < 64 && LastAl(Infos(ps), |ps|, c, k) == 0
    ensures PassesOk(Blank(img), ps)
    ensures var o := DecodeFirst(Blank(img), ps, EncodeAll(img, ps), |ps|);
      o.Good? && SameShape(img, o.img) && o.img[c][i][k] == img[c][i][k]
  {
    ScriptDecodes(img, ps, |ps|);
    ShownExact(img[c][i][k]);
    hide DecodeFirst, EncodeAll, DcShown, AcShown;
  }
}
