// The scripts the library itself makes (jpeg_simple_progression of jcparam.c and the single scan
// of select_scan_parameters), written out scan by scan: all of them are accepted, and the
// progressive ones leave no bit of any coefficient unsent.
module StandardScripts {
  import opened ScanScript
  import P = ProgressiveImage

  /** Components 0 to n - 1. */
  function FirstComps(n: nat): (cs: seq<int>)
    ensures |cs| == n
  {
    seq(n, i requires 0 <= i < n => i)
  }

  // ----- the scripts -----

  /** One scan for each component. */
  function EachScan(n: nat, ss: int, se: int, ah: int, al: int): (scans: seq<ScanInfo>)
    ensures |scans| == n
  {
    seq(n, c requires 0 <= c < n => ScanInfo([c], ss, se, ah, al))
  }

  /** All DC terms in one scan when four components at most allow it. */
  function DcScans(n: nat, ah: int, al: int): seq<ScanInfo> {
    if n <= 4 then [ScanInfo(FirstComps(n), 0, 0, ah, al)] else EachScan(n, 0, 0, ah, al)
  }

  function AllPurpose(n: nat): seq<ScanInfo> {
    DcScans(n, 0, 1) + EachScan(n, 1, 5, 0, 2) + EachScan(n, 6, 63, 0, 2) + EachScan(n, 1, 63, 2, 1)
    + DcScans(n, 1, 0) + EachScan(n, 1, 63, 1, 0)
  }

  function YcbcrScript(): seq<ScanInfo> {
    [ScanInfo([0, 1, 2], 0, 0, 0, 1),
     ScanInfo([0], 1, 5, 0, 2), ScanInfo([2], 1, 63, 0, 1), ScanInfo([1], 1, 63, 0, 1), ScanInfo([0], 6, 63, 0, 2),
     ScanInfo([0], 1, 63, 2, 1),
     ScanInfo([0, 1, 2], 0, 0, 1, 0),
     ScanInfo([2], 1, 63, 1, 0), ScanInfo([1], 1, 63, 1, 0), ScanInfo([0], 1, 63, 1, 0)]
  }

  // ----- making them -----

  method FillAScan(script: seq<ScanInfo>, ci: int, ss: int, se: int, ah: int, al: int) returns (filled: seq<ScanInfo>)
    ensures filled == script + [ScanInfo([ci], ss, se, ah, al)]
  {
    filled := script + [ScanInfo([ci], ss, se, ah, al)];
  }

  method FillScans(script: seq<ScanInfo>, ncomps: nat, ss: int, se: int, ah: int, al: int) returns (filled: seq<ScanInfo>)
    ensures filled == script + EachScan(ncomps, ss, se, ah, al)
  {
    filled := script;
    var ci := 0;
    while ci < ncomps
      invariant 0 <= ci <= ncomps && filled == script + EachScan(ncomps, ss, se, ah, al)[..ci]
    {
      filled := filled + [ScanInfo([ci], ss, se, ah, al)];
      ci := ci + 1;
    }
  }

  method FillDcScans(script: seq<ScanInfo>, ncomps: nat, ah: int, al: int) returns (filled: seq<ScanInfo>)
    ensures filled == script + DcScans(ncomps, ah, al)
  {
    if ncomps <= MAX_COMPS_IN_SCAN {
      var indexes: seq<int>, ci := [], 0;
      while ci < ncomps
        invariant 0 <= ci <= ncomps && indexes == FirstComps(ncomps)[..ci]
      {
        indexes := indexes + [ci];
        ci := ci + 1;
      }
      assert indexes == FirstComps(ncomps);
      filled := script + [ScanInfo(indexes, 0, 0, ah, al)];
    } else {
      filled := FillScans(script, ncomps, 0, 0, ah, al);
    }
  }

  /** jpeg_simple_progression: the script it makes fills exactly the space it asks for, and
      validate_script accepts it as progressive, with every coefficient sent down to its last bit. */
  method SimpleProgression(ncomps: nat, ycbcr: bool) returns (script: seq<ScanInfo>, nscans: nat)
    requires 1 <= ncomps <= MAX_COMPONENTS
    ensures script == if ncomps == 3 && ycbcr then YcbcrScript() else AllPurpose(ncomps)
    ensures |script| == nscans && nscans == if ncomps == 3 && ycbcr then 10 else if ncomps > 4 then 6 * ncomps else 2 + 4 * ncomps
    ensures ValidScript(script, ncomps) && IsProgressive(script)
    ensures forall c, k :: 0 <= c < ncomps && 0 <= k < 64 ==> LastAl(script, |script|, c, k) == 0
  {
    if ncomps == 3 && ycbcr {
      nscans := 10;
    } else if ncomps > MAX_COMPS_IN_SCAN {
      nscans := 6 * ncomps;
    } else {
      nscans := 2 + 4 * ncomps;
    }
    if ncomps == 3 && ycbcr {
      script := FillDcScans([], ncomps, 0, 1);
      script := FillAScan(script, 0, 1, 5, 0, 2);
      script := FillAScan(script, 2, 1, 63, 0, 1);
      script := FillAScan(script, 1, 1, 63, 0, 1);
      script := FillAScan(script, 0, 6, 63, 0, 2);
      script := FillAScan(script, 0, 1, 63, 2, 1);
      script := FillDcScans(script, ncomps, 1, 0);
      script := FillAScan(script, 2, 1, 63, 1, 0);
      script := FillAScan(script, 1, 1, 63, 1, 0);
      script := FillAScan(script, 0, 1, 63, 1, 0);
      assert FirstComps(3) == [0, 1, 2];
      YcbcrAccepted();
    } else {
      script := FillDcScans([], ncomps, 0, 1);
      script := FillScans(script, ncomps, 1, 5, 0, 2);
      script := FillScans(script, ncomps, 6, 63, 0, 2);
      script := FillScans(script, ncomps, 1, 63, 2, 1);
      script := FillDcScans(script, ncomps, 1, 0);
      script := FillScans(script, ncomps, 1, 63, 1, 0);
      assert [] + DcScans(ncomps, 0, 1) == DcScans(ncomps, 0, 1);
      AllPurposeAccepted(ncomps);
    }
  }

  // ----- how a script grows -----

  /** Every scan so far is in order. */
  ghost predicate ScansOk(scans: seq<ScanInfo>, ncomps: int) {
    forall n :: 0 <= n < |scans| ==> CompsOk(scans[n], ncomps) && ParamsOk(scans[n]) && ProgressionOk(scans, n)
  }

  /** The last bit positions sent for a component: its DC term, coefficients 1 to 5, and 6 to 63. */
  datatype Row = Row(dc: int, low: int, high: int)

  ghost predicate At(scans: seq<ScanInfo>, c: int, r: Row) {
    && LastAl(scans, |scans|, c, 0) == r.dc
    && (forall k :: 1 <= k <= 5 ==> LastAl(scans, |scans|, c, k) == r.low)
    && (forall k :: 6 <= k <= 63 ==> LastAl(scans, |scans|, c, k) == r.high)
  }

  lemma {:induction false} LastAlPrefix(a: seq<ScanInfo>, b: seq<ScanInfo>, n: nat, c: int, k: int)
    requires n <= |a|
    ensures LastAl(a + b, n, c, k) == LastAl(a, n, c, k)
    decreases n
  {
    if n > 0 {
      assert (a + b)[n - 1] == a[n - 1];
      LastAlPrefix(a, b, n - 1, c, k);
    }
  }

  lemma {:induction false} LastAlOne(scans: seq<ScanInfo>, s: ScanInfo, c: int, k: int)
    ensures LastAl(scans + [s], |scans| + 1, c, k) == if Covers(s, c, k) then s.al else LastAl(scans, |scans|, c, k)
  {
    assert (scans + [s])[|scans|] == s;
    LastAlPrefix(scans, [s], |scans|, c, k);
  }

  /** What the next scan must be like. */
  ghost predicate NextOk(scans: seq<ScanInfo>, s: ScanInfo, ncomps: int) {
    && CompsOk(s, ncomps) && ParamsOk(s)
    && forall i :: 0 <= i < |s.comps| ==> NextCompOk(scans, s, s.comps[i])
  }

  ghost predicate NextCompOk(scans: seq<ScanInfo>, s: ScanInfo, c: int) {
    && (s.ss != 0 ==> LastAl(scans, |scans|, c, 0) >= 0)
    && forall k :: s.ss <= k <= s.se ==> StepOk(s, LastAl(scans, |scans|, c, k))
  }

  lemma {:induction false} ScanAdded(scans: seq<ScanInfo>, s: ScanInfo, ncomps: int)
    requires ScansOk(scans, ncomps) && NextOk(scans, s, ncomps)
    ensures ScansOk(scans + [s], ncomps)
  {
    hide CompsOk, ParamsOk, StepOk;
    var all := scans + [s];
    forall n | 0 <= n < |all| ensures CompsOk(all[n], ncomps) && ParamsOk(all[n]) && ProgressionOk(all, n) {
      forall c, k ensures LastAl(all, n, c, k) == LastAl(scans, n, c, k) {
        LastAlPrefix(scans, [s], n, c, k);
      }
      hide LastAl;
      if n < |scans| {
        assert CompsOk(scans[n], ncomps) && ParamsOk(scans[n]) && ProgressionOk(scans, n);
        assert all[n] == scans[n];
        forall i | 0 <= i < |all[n].comps| ensures CompStepsOk(all, n, all[n].comps[i], all[n].se + 1) {
          assert CompStepsOk(scans, n, scans[n].comps[i], scans[n].se + 1);
        }
      } else {
        forall i | 0 <= i < |s.comps| ensures (s.ss != 0 ==> LastAl(all, n, s.comps[i], 0) >= 0) && CompStepsOk(all, n, s.comps[i], s.se + 1) {
          assert NextCompOk(scans, s, s.comps[i]);
        }
      }
    }
  }

  /** The four bands the scripts use. */
  predicate Band(ss: int, se: int) {
    (ss == 0 && se == 0) || (ss == 1 && se == 5) || (ss == 6 && se == 63) || (ss == 1 && se == 63)
  }

  /** The last bit positions after scan s. */
  function Next(s: ScanInfo, r: Row): Row {
    Row(if s.ss == 0 then s.al else r.dc, if s.ss == 1 then s.al else r.low, if s.se == 63 then s.al else r.high)
  }

  lemma {:induction false} AtAfter(scans: seq<ScanInfo>, s: ScanInfo, c: int, r: Row)
    requires At(scans, c, r) && Band(s.ss, s.se)
    ensures At(scans + [s], c, if c in s.comps then Next(s, r) else r)
  {
    forall k ensures LastAl(scans + [s], |scans| + 1, c, k) == if Covers(s, c, k) then s.al else LastAl(scans, |scans|, c, k) {
      LastAlOne(scans, s, c, k);
    }
    hide LastAl;
  }

  /** Whether a component in state r may be in scan s. */
  predicate MayFollow(s: ScanInfo, r: Row) {
    && (s.ss != 0 ==> r.dc >= 0)
    && (s.ss == 0 ==> StepOk(s, r.dc)) && (s.ss == 1 ==> StepOk(s, r.low)) && (s.se == 63 ==> StepOk(s, r.high))
  }

  lemma {:induction false} Follows(scans: seq<ScanInfo>, s: ScanInfo, c: int, r: Row)
    requires At(scans, c, r) && Band(s.ss, s.se) && MayFollow(s, r)
    ensures NextCompOk(scans, s, c)
  {
    hide LastAl, StepOk;
  }

  // A scan and its parameters alone.
  function Like(ss: int, se: int, ah: int, al: int): ScanInfo {
    ScanInfo([], ss, se, ah, al)
  }

  lemma {:induction false} SameStep(s: ScanInfo, t: ScanInfo, r: Row)
    requires s.ss == t.ss && s.se == t.se && s.ah == t.ah && s.al == t.al && MayFollow(s, r)
    ensures MayFollow(t, r) && Next(s, r) == Next(t, r)
  {
  }

  lemma {:induction false} OneComp(c: int, s: ScanInfo, ncomps: int)
    requires s.comps == [c] && 0 <= c < ncomps && Band(s.ss, s.se) && 0 <= s.ah <= 10 && 0 <= s.al <= 10
    ensures CompsOk(s, ncomps) && ParamsOk(s)
  {
  }

  // Components from..to all in the same state.
  ghost predicate AllAt(scans: seq<ScanInfo>, from: int, to: int, r: Row) {
    forall c :: from <= c < to ==> At(scans, c, r)
  }

  /** A scan for each component brings all of them from one state to the next. */
  lemma {:induction false} EachAdded(scans: seq<ScanInfo>, ncomps: nat, n: nat, s: ScanInfo, r: Row)
    requires ScansOk(scans, ncomps) && AllAt(scans, 0, ncomps, r) && n <= ncomps
    requires Band(s.ss, s.se) && MayFollow(s, r) && 0 <= s.ah <= 10 && 0 <= s.al <= 10
    ensures var all := scans + EachScan(ncomps, s.ss, s.se, s.ah, s.al)[..n];
      ScansOk(all, ncomps) && AllAt(all, 0, n, Next(s, r)) && AllAt(all, n, ncomps, r)
    decreases n
  {
    hide LastAl, MayFollow, At, NextCompOk, CompsOk, ParamsOk, ScansOk, Next;
    var each := EachScan(ncomps, s.ss, s.se, s.ah, s.al);
    if n == 0 {
      assert scans + each[..0] == scans;
    } else {
      EachAdded(scans, ncomps, n - 1, s, r);
      var before, t := scans + each[..n - 1], each[n - 1];
      assert scans + each[..n] == before + [t];
      SameStep(s, t, r);
      OneComp(n - 1, t, ncomps);
      Follows(before, t, n - 1, r);
      ScanAdded(before, t, ncomps);
      forall c | 0 <= c < n ensures At(before + [t], c, Next(s, r)) {
        AtAfter(before, t, c, if c < n - 1 then Next(s, r) else r);
      }
      forall c | n <= c < ncomps ensures At(before + [t], c, r) {
        AtAfter(before, t, c, r);
      }
    }
  }

  lemma {:induction false} AllEach(scans: seq<ScanInfo>, ncomps: nat, s: ScanInfo, r: Row)
    requires ScansOk(scans, ncomps) && AllAt(scans, 0, ncomps, r)
    requires Band(s.ss, s.se) && MayFollow(s, r) && 0 <= s.ah <= 10 && 0 <= s.al <= 10
    ensures var all := scans + EachScan(ncomps, s.ss, s.se, s.ah, s.al); ScansOk(all, ncomps) && AllAt(all, 0, ncomps, Next(s, r))
  {
    hide ScansOk, AllAt, MayFollow, Next;
    EachAdded(scans, ncomps, ncomps, s, r);
    var each := EachScan(ncomps, s.ss, s.se, s.ah, s.al);
    assert each[..ncomps] == each;
  }

  lemma {:induction false} AllDc(scans: seq<ScanInfo>, ncomps: nat, ah: int, al: int, r: Row)
    requires ScansOk(scans, ncomps) && AllAt(scans, 0, ncomps, r) && ncomps > 0
    requires MayFollow(Like(0, 0, ah, al), r) && 0 <= ah <= 10 && 0 <= al <= 10
    ensures var all := scans + DcScans(ncomps, ah, al); ScansOk(all, ncomps) && AllAt(all, 0, ncomps, Next(Like(0, 0, ah, al), r))
  {
    hide LastAl, MayFollow, At, NextCompOk, ScansOk, Next;
    if ncomps <= 4 {
      var s := ScanInfo(FirstComps(ncomps), 0, 0, ah, al);
      SameStep(Like(0, 0, ah, al), s, r);
      forall i | 0 <= i < |s.comps| ensures NextCompOk(scans, s, s.comps[i]) {
        Follows(scans, s, s.comps[i], r);
      }
      ScanAdded(scans, s, ncomps);
      forall c | 0 <= c < ncomps ensures At(scans + [s], c, Next(s, r)) {
        assert s.comps[c] == c;
        AtAfter(scans, s, c, r);
      }
    } else {
      AllEach(scans, ncomps, Like(0, 0, ah, al), r);
    }
  }

  lemma {:induction false} AllAtFirst(n: nat)
    ensures ScansOk([], n) && AllAt([], 0, n, Row(-1, -1, -1))
  {
  }

  // A script all of whose scans are in order and that left everything at bit 0.
  lemma {:induction false} Finished(script: seq<ScanInfo>, ncomps: nat)
    requires script != [] && ScansOk(script, ncomps) && AllAt(script, 0, ncomps, Row(0, 0, 0)) && IsProgressive(script)
    ensures ValidScript(script, ncomps)
    ensures forall c, k :: 0 <= c < ncomps && 0 <= k < 64 ==> LastAl(script, |script|, c, k) == 0
  {
    hide LastAl, CompsOk, ParamsOk, ProgressionOk;
    forall c, k | 0 <= c < ncomps && 0 <= k < 64 ensures LastAl(script, |script|, c, k) == 0 {
      assert At(script, c, Row(0, 0, 0));
    }
  }

  /** The all-purpose script is accepted for any number of components, and is complete. */
  lemma {:induction false} AllPurposeAccepted(n: nat)
    requires 1 <= n
    ensures ValidScript(AllPurpose(n), n) && IsProgressive(AllPurpose(n))
    ensures |AllPurpose(n)| == if n > 4 then 6 * n else 2 + 4 * n
    ensures forall c, k :: 0 <= c < n && 0 <= k < 64 ==> LastAl(AllPurpose(n), |AllPurpose(n)|, c, k) == 0
  {
    hide At, ScansOk, AllAt, ValidScript, EachScan;
    AllAtFirst(n);
    AllDc([], n, 0, 1, Row(-1, -1, -1));
    var a := [] + DcScans(n, 0, 1);
    assert a == DcScans(n, 0, 1);
    AllEach(a, n, Like(1, 5, 0, 2), Row(1, -1, -1));
    var b := a + EachScan(n, 1, 5, 0, 2);
    AllEach(b, n, Like(6, 63, 0, 2), Row(1, 2, -1));
    var c := b + EachScan(n, 6, 63, 0, 2);
    AllEach(c, n, Like(1, 63, 2, 1), Row(1, 2, 2));
    var d := c + EachScan(n, 1, 63, 2, 1);
    AllDc(d, n, 1, 0, Row(1, 1, 1));
    var e := d + DcScans(n, 1, 0);
    AllEach(e, n, Like(1, 63, 1, 0), Row(0, 1, 1));
    assert AllPurpose(n) == e + EachScan(n, 1, 63, 1, 0);
    DcFirst(n, 0, 1);
    assert AllPurpose(n)[0] == DcScans(n, 0, 1)[0];
    Finished(AllPurpose(n), n);
  }

  lemma {:induction false} DcFirst(n: nat, ah: int, al: int)
    requires n > 0
    ensures |DcScans(n, ah, al)| > 0 && DcScans(n, ah, al)[0].se == 0
  {
  }

  // ----- the script for YCbCr -----

  // The three components each in its own state.
  ghost predicate Three(scans: seq<ScanInfo>, y: Row, cb: Row, cr: Row) {
    ScansOk(scans, 3) && At(scans, 0, y) && At(scans, 1, cb) && At(scans, 2, cr)
  }

  // A scan of one of the three components.
  lemma {:induction false} OneAdded(scans: seq<ScanInfo>, y: Row, cb: Row, cr: Row, c: nat, ss: int, se: int, ah: int, al: int)
    requires Three(scans, y, cb, cr) && c < 3 && Band(ss, se) && 0 <= ah <= 10 && 0 <= al <= 10
    requires MayFollow(Like(ss, se, ah, al), if c == 0 then y else if c == 1 then cb else cr)
    ensures Three(scans + [ScanInfo([c], ss, se, ah, al)], if c == 0 then Next(Like(ss, se, ah, al), y) else y,
                  if c == 1 then Next(Like(ss, se, ah, al), cb) else cb, if c == 2 then Next(Like(ss, se, ah, al), cr) else cr)
  {
    hide At, ScansOk, NextCompOk, MayFollow, Band, CompsOk, ParamsOk, Next;
    var s := ScanInfo([c], ss, se, ah, al);
    var r := if c == 0 then y else if c == 1 then cb else cr;
    SameStep(Like(ss, se, ah, al), s, r);
    OneComp(c, s, 3);
    Follows(scans, s, c, r);
    ScanAdded(scans, s, 3);
    AtAfter(scans, s, 0, y);
    AtAfter(scans, s, 1, cb);
    AtAfter(scans, s, 2, cr);
  }

  // A DC scan of all three.
  lemma {:induction false} DcAdded(scans: seq<ScanInfo>, y: Row, cb: Row, cr: Row, ah: int, al: int)
    requires Three(scans, y, cb, cr) && 0 <= ah <= 10 && 0 <= al <= 10
    requires MayFollow(Like(0, 0, ah, al), y) && MayFollow(Like(0, 0, ah, al), cb) && MayFollow(Like(0, 0, ah, al), cr)
    ensures Three(scans + [ScanInfo([0, 1, 2], 0, 0, ah, al)], Next(Like(0, 0, ah, al), y), Next(Like(0, 0, ah, al), cb), Next(Like(0, 0, ah, al), cr))
  {
    hide At, ScansOk, NextCompOk, MayFollow, Next;
    var s := ScanInfo([0, 1, 2], 0, 0, ah, al);
    SameStep(Like(0, 0, ah, al), s, y);
    SameStep(Like(0, 0, ah, al), s, cb);
    SameStep(Like(0, 0, ah, al), s, cr);
    Follows(scans, s, 0, y);
    Follows(scans, s, 1, cb);
    Follows(scans, s, 2, cr);
    ScanAdded(scans, s, 3);
    AtAfter(scans, s, 0, y);
    AtAfter(scans, s, 1, cb);
    AtAfter(scans, s, 2, cr);
  }

  lemma {:induction false} ThreeFirst()
    ensures Three([], Row(-1, -1, -1), Row(-1, -1, -1), Row(-1, -1, -1))
  {
  }

  // The first five scans.
  lemma {:induction false} EarlyOk(e: seq<ScanInfo>)
    requires e == [] + [ScanInfo([0, 1, 2], 0, 0, 0, 1)] + [ScanInfo([0], 1, 5, 0, 2)] + [ScanInfo([2], 1, 63, 0, 1)] + [ScanInfo([1], 1, 63, 0, 1)]
                     + [ScanInfo([0], 6, 63, 0, 2)]
    ensures Three(e, Row(1, 2, 2), Row(1, 1, 1), Row(1, 1, 1))
  {
    hide Three;
    ThreeFirst();
    DcAdded([], Row(-1, -1, -1), Row(-1, -1, -1), Row(-1, -1, -1), 0, 1);
    var a := [] + [ScanInfo([0, 1, 2], 0, 0, 0, 1)];
    OneAdded(a, Row(1, -1, -1), Row(1, -1, -1), Row(1, -1, -1), 0, 1, 5, 0, 2);
    var b := a + [ScanInfo([0], 1, 5, 0, 2)];
    OneAdded(b, Row(1, 2, -1), Row(1, -1, -1), Row(1, -1, -1), 2, 1, 63, 0, 1);
    var c := b + [ScanInfo([2], 1, 63, 0, 1)];
    OneAdded(c, Row(1, 2, -1), Row(1, -1, -1), Row(1, 1, 1), 1, 1, 63, 0, 1);
    var d := c + [ScanInfo([1], 1, 63, 0, 1)];
    OneAdded(d, Row(1, 2, -1), Row(1, 1, 1), Row(1, 1, 1), 0, 6, 63, 0, 2);
  }

  // The other five.
  lemma {:induction false} LateOk(e: seq<ScanInfo>, all: seq<ScanInfo>)
    requires Three(e, Row(1, 2, 2), Row(1, 1, 1), Row(1, 1, 1))
    requires all == e + [ScanInfo([0], 1, 63, 2, 1)] + [ScanInfo([0, 1, 2], 0, 0, 1, 0)] + [ScanInfo([2], 1, 63, 1, 0)] + [ScanInfo([1], 1, 63, 1, 0)]
                    + [ScanInfo([0], 1, 63, 1, 0)]
    ensures Three(all, Row(0, 0, 0), Row(0, 0, 0), Row(0, 0, 0))
  {
    hide Three;
    OneAdded(e, Row(1, 2, 2), Row(1, 1, 1), Row(1, 1, 1), 0, 1, 63, 2, 1);
    var a := e + [ScanInfo([0], 1, 63, 2, 1)];
    DcAdded(a, Row(1, 1, 1), Row(1, 1, 1), Row(1, 1, 1), 1, 0);
    var b := a + [ScanInfo([0, 1, 2], 0, 0, 1, 0)];
    OneAdded(b, Row(0, 1, 1), Row(0, 1, 1), Row(0, 1, 1), 2, 1, 63, 1, 0);
    var c := b + [ScanInfo([2], 1, 63, 1, 0)];
    OneAdded(c, Row(0, 1, 1), Row(0, 1, 1), Row(0, 0, 0), 1, 1, 63, 1, 0);
    var d := c + [ScanInfo([1], 1, 63, 1, 0)];
    OneAdded(d, Row(0, 1, 1), Row(0, 0, 0), Row(0, 0, 0), 0, 1, 63, 1, 0);
  }

  /** The ten scans for YCbCr are accepted for three components, and are complete. */
  lemma {:induction false} YcbcrAccepted()
    ensures ValidScript(YcbcrScript(), 3) && IsProgressive(YcbcrScript())
    ensures forall c, k :: 0 <= c < 3 && 0 <= k < 64 ==> LastAl(YcbcrScript(), 10, c, k) == 0
  {
    hide Three, ValidScript;
    var e := [] + [ScanInfo([0, 1, 2], 0, 0, 0, 1)] + [ScanInfo([0], 1, 5, 0, 2)] + [ScanInfo([2], 1, 63, 0, 1)] + [ScanInfo([1], 1, 63, 0, 1)]
             + [ScanInfo([0], 6, 63, 0, 2)];
    EarlyOk(e);
    LateOk(e, YcbcrScript());
    ThreeLast(YcbcrScript());
  }

  lemma {:induction false} ThreeLast(script: seq<ScanInfo>)
    requires script != [] && Three(script, Row(0, 0, 0), Row(0, 0, 0), Row(0, 0, 0)) && IsProgressive(script)
    ensures ValidScript(script, 3)
    ensures forall c, k :: 0 <= c < 3 && 0 <= k < 64 ==> LastAl(script, |script|, c, k) == 0
  {
    hide At, ScansOk, ValidScript, LastAl;
    forall c | 0 <= c < 3 ensures At(script, c, Row(0, 0, 0)) {
    }
    Finished(script, 3);
  }

  // ----- the limits -----

  /** A single DC scan of all n components is a script exactly for 1 to 4 components and bit
      positions 0 to 10. */
  lemma {:induction false} OneDcScan(n: nat, al: int)
    ensures ValidScript([ScanInfo(FirstComps(n), 0, 0, 0, al)], n) <==> 1 <= n <= 4 && 0 <= al <= 10
  {
    var s := ScanInfo(FirstComps(n), 0, 0, 0, al);
    var script := [s];
    assert script[0] == s && IsProgressive(script);
    if 1 <= n <= 4 && 0 <= al <= 10 {
      assert CompsOk(s, n) && ParamsOk(s);
      assert ProgressionOk(script, 0);
      forall c | 0 <= c < n ensures LastAl(script, 1, c, 0) >= 0 {
        assert s.comps[c] == c;
      }
      assert ProgressiveOk(script, n);
    } else {
      FirstOk(script, n);
    }
  }

  /** A single sequential scan of all n components is a script exactly for 1 to 4 components. */
  lemma {:induction false} OneSequentialScan(n: nat)
    ensures ValidScript([ScanInfo(FirstComps(n), 0, 63, 0, 0)], n) <==> 1 <= n <= 4
    ensures !IsProgressive([ScanInfo(FirstComps(n), 0, 63, 0, 0)])
  {
    var s := ScanInfo(FirstComps(n), 0, 63, 0, 0);
    var script := [s];
    assert script[0] == s;
    if 1 <= n <= 4 {
      assert CompsOk(s, n);
      forall c | 0 <= c < n ensures Sent(script, 1, c) {
        assert s.comps[c] == c;
      }
      assert SequentialOk(script, n);
    } else {
      FirstOk(script, n);
    }
  }

  lemma {:induction false} FirstOk(scans: seq<ScanInfo>, ncomps: int)
    requires scans != []
    ensures ValidScript(scans, ncomps) ==> CompsOk(scans[0], ncomps)
    ensures ValidScript(scans, ncomps) && IsProgressive(scans) ==> ParamsOk(scans[0])
  {
    hide CompsOk, ParamsOk;
  }

  /** No script holds a scan of five components, and no progressive one a bit position above 10. */
  lemma {:induction false} Refused(scans: seq<ScanInfo>, ncomps: int, n: nat)
    requires n < |scans|
    ensures |scans[n].comps| > 4 ==> !ValidScript(scans, ncomps)
    ensures IsProgressive(scans) && (scans[n].ah > 10 || scans[n].al > 10) ==> !ValidScript(scans, ncomps)
  {
    if ValidScript(scans, ncomps) {
      assert CompsOk(scans[n], ncomps);
      assert IsProgressive(scans) ==> ParamsOk(scans[n]);
    }
  }

  // ----- acceptance without a running state -----

  /** Scan m is the last before scan n that carries coefficient k of component c. */
  ghost predicate Previous(scans: seq<ScanInfo>, m: nat, n: nat, c: int, k: int)
    requires m < n <= |scans|
  {
    && c in scans[m].comps && scans[m].ss <= k <= scans[m].se
    && forall j :: m < j < n ==> !Covers(scans[j], c, k)
  }

  /** One to four components of the image in order. */
  ghost predicate InOrder(s: ScanInfo, ncomps: int) {
    && 1 <= |s.comps| <= 4
    && (forall i :: 0 <= i < |s.comps| ==> 0 <= s.comps[i] < ncomps)
    && (forall i, j :: 0 <= i < j < |s.comps| ==> s.comps[i] < s.comps[j])
  }

  /** A progressive scan on its own: its band is the DC term alone or AC coefficients of one component. */
  ghost predicate ScanAlone(s: ScanInfo, ncomps: int) {
    && InOrder(s, ncomps) && 0 <= s.ah <= 10 && 0 <= s.al <= 10
    && ((s.ss == 0 && s.se == 0) || (1 <= s.ss <= s.se <= 63 && |s.comps| == 1))
  }

  /** Coefficient k of component c in scan n: sent first with Ah 0, and afterwards one bit at a time. */
  ghost predicate InTurn(scans: seq<ScanInfo>, n: nat, c: int, k: int)
    requires n < |scans|
  {
    && ((forall m: nat :: m < n ==> !Covers(scans[m], c, k)) ==> scans[n].ah == 0)
    && forall m: nat :: m < n && Previous(scans, m, n, c, k) ==> scans[n].ah == scans[m].al && scans[n].al == scans[n].ah - 1
  }

  /** A DC scan of component c comes before scan n. */
  ghost predicate DcSent(scans: seq<ScanInfo>, n: nat, c: int)
    requires n <= |scans|
  {
    exists m: nat :: m < n && scans[m].ss == 0 && c in scans[m].comps
  }

  ghost predicate Accepts(scans: seq<ScanInfo>, ncomps: int) {
    && (forall n :: 0 <= n < |scans| ==> ScanAlone(scans[n], ncomps))
    && (forall n: nat, c, k :: n < |scans| && Covers(scans[n], c, k) ==> InTurn(scans, n, c, k))
    && (forall n: nat, c :: n < |scans| && scans[n].ss != 0 && c in scans[n].comps ==> DcSent(scans, n, c))
    && (forall c :: 0 <= c < ncomps ==> DcSent(scans, |scans|, c))
  }

  lemma {:induction false} LastAlIs(scans: seq<ScanInfo>, n: nat, c: int, k: int)
    requires n <= |scans| && forall m :: 0 <= m < n ==> scans[m].al >= 0
    ensures LastAl(scans, n, c, k) < 0 <==> forall m: nat :: m < n ==> !Covers(scans[m], c, k)
    ensures forall m: nat :: m < n && Previous(scans, m, n, c, k) ==> LastAl(scans, n, c, k) == scans[m].al
    ensures LastAl(scans, n, c, k) >= 0 ==> exists m: nat :: m < n && Previous(scans, m, n, c, k)
    decreases n
  {
    if n > 0 {
      LastAlIs(scans, n - 1, c, k);
      if Covers(scans[n - 1], c, k) {
        assert Previous(scans, n - 1, n, c, k);
      } else if LastAl(scans, n - 1, c, k) >= 0 {
        var m: nat :| m < n - 1 && Previous(scans, m, n - 1, c, k);
        assert Previous(scans, m, n, c, k);
        forall j: nat | j < n && Previous(scans, j, n, c, k) ensures LastAl(scans, n, c, k) == scans[j].al {
          assert j != n - 1;
          assert Previous(scans, j, n - 1, c, k);
        }
      }
    }
  }

  lemma {:induction false} AloneIs(s: ScanInfo, ncomps: int)
    ensures InOrder(s, ncomps) <==> CompsOk(s, ncomps)
    ensures ScanAlone(s, ncomps) <==> CompsOk(s, ncomps) && ParamsOk(s)
  {
    if CompsOk(s, ncomps) {
      forall i, j | 0 <= i < j < |s.comps| ensures s.comps[i] < s.comps[j] {
        Increasing(s, ncomps, i, j);
      }
    }
  }

  lemma {:induction false} TurnIs(scans: seq<ScanInfo>, n: nat, c: int, k: int)
    requires n < |scans| && forall m :: 0 <= m < n ==> scans[m].al >= 0
    ensures InTurn(scans, n, c, k) <==> StepOk(scans[n], LastAl(scans, n, c, k))
  {
    LastAlIs(scans, n, c, k);
    hide LastAl;
  }

  lemma {:induction false} DcIs(scans: seq<ScanInfo>, n: nat, c: int, ncomps: int)
    requires n <= |scans| && forall m :: 0 <= m < n ==> ScanAlone(scans[m], ncomps)
    ensures DcSent(scans, n, c) <==> LastAl(scans, n, c, 0) >= 0
  {
    LastAlIs(scans, n, c, 0);
    hide LastAl;
    if DcSent(scans, n, c) {
      var m: nat :| m < n && scans[m].ss == 0 && c in scans[m].comps;
      assert Covers(scans[m], c, 0);
    }
    if !DcSent(scans, n, c) {
      forall m: nat | m < n ensures !Covers(scans[m], c, 0) {
        assert ScanAlone(scans[m], ncomps);
      }
    }
  }

  /** Main result for scripts: a script that starts as a progressive one is accepted exactly when
      each scan is in order on its own, each coefficient is sent first whole and then bit by bit,
      AC scans follow a DC scan of their component, and every component has a DC scan. */
  lemma {:induction false} AcceptedExactly(scans: seq<ScanInfo>, ncomps: int)
    requires scans != [] && IsProgressive(scans)
    ensures ValidScript(scans, ncomps) <==> Accepts(scans, ncomps)
  {
    hide LastAl, ScanAlone, CompsOk, ParamsOk, InTurn, DcSent, StepOk;
    forall n | 0 <= n < |scans| ensures ScanAlone(scans[n], ncomps) <==> CompsOk(scans[n], ncomps) && ParamsOk(scans[n]) {
      AloneIs(scans[n], ncomps);
    }
    if forall n :: 0 <= n < |scans| ==> ScanAlone(scans[n], ncomps) {
      forall n: nat | n < |scans| ensures scans[n].al >= 0 {
        AlNonNegative(scans[n], ncomps);
      }
      forall n: nat, c | n <= |scans| ensures DcSent(scans, n, c) <==> LastAl(scans, n, c, 0) >= 0 {
        DcIs(scans, n, c, ncomps);
      }
      forall n: nat, c, k | n < |scans| ensures InTurn(scans, n, c, k) <==> StepOk(scans[n], LastAl(scans, n, c, k)) {
        TurnIs(scans, n, c, k);
      }
      if ProgressiveOk(scans, ncomps) {
        AcceptsWhenOk(scans, ncomps);
      }
      if Accepts(scans, ncomps) {
        forall n: nat | n < |scans| ensures ProgressionOk(scans, n) {
          OkWhenAccepted(scans, ncomps, n);
        }
      }
    }
  }

  lemma {:induction false} AlNonNegative(s: ScanInfo, ncomps: int)
    requires ScanAlone(s, ncomps)
    ensures s.al >= 0
  {
  }

  lemma {:induction false} AcceptsWhenOk(scans: seq<ScanInfo>, ncomps: int)
    requires ProgressiveOk(scans, ncomps) && forall n :: 0 <= n < |scans| ==> ScanAlone(scans[n], ncomps)
    requires forall n: nat, c :: n <= |scans| ==> (DcSent(scans, n, c) <==> LastAl(scans, n, c, 0) >= 0)
    requires forall n: nat, c, k :: n < |scans| ==> (InTurn(scans, n, c, k) <==> StepOk(scans[n], LastAl(scans, n, c, k)))
    ensures Accepts(scans, ncomps)
  {
    hide LastAl, ScanAlone, CompsOk, ParamsOk, InTurn, DcSent, StepOk;
    forall n: nat, c, k | n < |scans| && Covers(scans[n], c, k) ensures InTurn(scans, n, c, k) {
      assert ProgressionOk(scans, n);
      var i :| 0 <= i < |scans[n].comps| && scans[n].comps[i] == c;
      assert CompStepsOk(scans, n, scans[n].comps[i], scans[n].se + 1);
    }
    forall n: nat, c | n < |scans| && scans[n].ss != 0 && c in scans[n].comps ensures DcSent(scans, n, c) {
      assert ProgressionOk(scans, n);
      var i :| 0 <= i < |scans[n].comps| && scans[n].comps[i] == c;
    }
  }

  lemma {:induction false} OkWhenAccepted(scans: seq<ScanInfo>, ncomps: int, n: nat)
    requires Accepts(scans, ncomps) && n < |scans|
    requires forall n: nat, c :: n <= |scans| ==> (DcSent(scans, n, c) <==> LastAl(scans, n, c, 0) >= 0)
    requires forall n: nat, c, k :: n < |scans| ==> (InTurn(scans, n, c, k) <==> StepOk(scans[n], LastAl(scans, n, c, k)))
    ensures ProgressionOk(scans, n)
  {
    hide LastAl, ScanAlone, CompsOk, ParamsOk, InTurn, DcSent, StepOk;
    var s := scans[n];
    forall i | 0 <= i < |s.comps|
      ensures (s.ss != 0 ==> LastAl(scans, n, s.comps[i], 0) >= 0) && CompStepsOk(scans, n, s.comps[i], s.se + 1)
    {
      assert s.comps[i] in s.comps;
      forall k | s.ss <= k <= s.se ensures StepOk(s, LastAl(scans, n, s.comps[i], k)) {
        assert Covers(s, s.comps[i], k);
      }
    }
  }

  /** And a script that starts as a sequential one exactly when all its scans are sequential with one
      to four components in order, and every component is in one scan and no other. */
  lemma {:induction false} SequentialExactly(scans: seq<ScanInfo>, ncomps: int)
    requires scans != [] && !IsProgressive(scans)
    ensures ValidScript(scans, ncomps) <==>
      && (forall n :: 0 <= n < |scans| ==> InOrder(scans[n], ncomps) && SequentialAlone(scans[n]))
      && (forall c, m, n :: 0 <= m < n < |scans| ==> !(c in scans[m].comps && c in scans[n].comps))
      && (forall c :: 0 <= c < ncomps ==> Carried(scans, c))
  {
    hide CompsOk, InOrder;
    forall n | 0 <= n < |scans| ensures InOrder(scans[n], ncomps) <==> CompsOk(scans[n], ncomps) {
      AloneIs(scans[n], ncomps);
    }
    if forall c, m, n :: 0 <= m < n < |scans| ==> !(c in scans[m].comps && c in scans[n].comps) {
      forall n: nat | n < |scans| ensures NoneSent(scans, n) {
      }
    }
    if SequentialOk(scans, ncomps) {
      forall c, m, n | 0 <= m < n < |scans| ensures !(c in scans[m].comps && c in scans[n].comps) {
        assert NoneSent(scans, n);
      }
      forall c | 0 <= c < ncomps ensures Carried(scans, c) {
        assert Sent(scans, |scans|, c);
      }
    }
    if forall c :: 0 <= c < ncomps ==> Carried(scans, c) {
      forall c | 0 <= c < ncomps ensures Sent(scans, |scans|, c) {
        assert Carried(scans, c);
      }
    }
  }

  predicate SequentialAlone(s: ScanInfo) {
    s.ss == 0 && s.se == 63 && s.ah == 0 && s.al == 0
  }

  ghost predicate Carried(scans: seq<ScanInfo>, c: int) {
    exists n :: 0 <= n < |scans| && c in scans[n].comps
  }

  // ----- what the script does for an image -----

  /** Main result: an image sent with the library's own progressive script comes out exactly. */
  lemma {:induction false} StandardExact(img: P.Image, ps: seq<P.Pass>, ycbcr: bool)
    requires P.ImageOk(img) && P.Sized(img) && P.PassesOk(img, ps) && |img| >= 1
    requires P.Infos(ps) == if |img| == 3 && ycbcr then YcbcrScript() else AllPurpose(|img|)
    ensures P.PassesOk(P.Blank(img), ps)
    ensures var o := P.DecodeFirst(P.Blank(img), ps, P.EncodeAll(img, ps), |ps|); o.Good? && o.img == img
  {
    hide P.DecodeFirst, P.EncodeAll, P.ImageOk, P.PassesOk, ValidScript, YcbcrScript, AllPurpose, LastAl, IsProgressive;
    StandardAccepted(|img|, ycbcr);
    P.ScriptDecodes(img, ps, |ps|);
    var o := P.DecodeFirst(P.Blank(img), ps, P.EncodeAll(img, ps), |ps|);
    forall c: nat, i: nat, k: nat | c < |img| && i < |img[c]| && k < 64
      ensures o.img[c][i][k] == img[c][i][k]
    {
      P.ExactWhenAlZero(img, ps, c, i, k);
    }
    SameImage(img, o.img);
  }

  lemma {:induction false} StandardAccepted(n: nat, ycbcr: bool)
    requires n >= 1
    ensures var script := if n == 3 && ycbcr then YcbcrScript() else AllPurpose(n);
      && ValidScript(script, n) && IsProgressive(script)
      && forall c, k :: 0 <= c < n && 0 <= k < 64 ==> LastAl(script, |script|, c, k) == 0
  {
    hide ValidScript, LastAl;
    if n == 3 && ycbcr {
      YcbcrAccepted();
    } else {
      AllPurposeAccepted(n);
    }
  }

  lemma {:induction false} SameImage(a: P.Image, b: P.Image)
    requires P.Sized(a) && P.SameShape(a, b) && forall c, i, k :: 0 <= c < |a| && 0 <= i < |a[c]| && 0 <= k < 64 ==> b[c][i][k] == a[c][i][k]
    ensures a == b
  {
    forall c | 0 <= c < |a| ensures a[c] == b[c] {
      forall i | 0 <= i < |a[c]| ensures a[c][i] == b[c][i] {
      }
    }
  }
}
