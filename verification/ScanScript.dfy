// validate_script (jcmaster.c): which scan scripts the compressor accepts.
module ScanScript {

  const MAX_COMPS_IN_SCAN: int := 4
  const MAX_COMPONENTS: int := 10
  const MAX_AH_AL: int := 10

  /** jpeg_scan_info. */
  datatype ScanInfo = ScanInfo(comps: seq<int>, ss: int, se: int, ah: int, al: int)

  /** Al of the last of the first n scans that carried coefficient k of component c, or -1. */
  function LastAl(scans: seq<ScanInfo>, n: nat, c: int, k: int): int
    requires n <= |scans|
  {
    if n == 0 then -1
    else if Covers(scans[n - 1], c, k) then scans[n - 1].al
    else LastAl(scans, n - 1, c, k)
  }

  predicate Covers(s: ScanInfo, c: int, k: int) {
    c in s.comps && s.ss <= k <= s.se
  }

  /** Component indexes in range and strictly increasing. */
  predicate CompsOk(s: ScanInfo, ncomps: int) {
    && 0 < |s.comps| <= MAX_COMPS_IN_SCAN
    && (forall i :: 0 <= i < |s.comps| ==> 0 <= s.comps[i] < ncomps)
    && (forall i :: 0 < i < |s.comps| ==> s.comps[i - 1] < s.comps[i])
  }

  predicate ParamsOk(s: ScanInfo) {
    && 0 <= s.ss <= s.se < 64 && 0 <= s.ah <= MAX_AH_AL && 0 <= s.al <= MAX_AH_AL
    && (if s.ss == 0 then s.se == 0 else |s.comps| == 1)
  }

  /** One coefficient of a scan, given the Al it was last sent with. */
  predicate StepOk(s: ScanInfo, last: int) {
    if last < 0 then s.ah == 0 else s.ah == last && s.al == s.ah - 1
  }

  /** Scan number n continues the progression of each component it carries. */
  predicate ProgressionOk(scans: seq<ScanInfo>, n: nat)
    requires n < |scans|
  {
    var s := scans[n];
    forall i :: 0 <= i < |s.comps| ==>
      && (s.ss != 0 ==> LastAl(scans, n, s.comps[i], 0) >= 0)
      && CompStepsOk(scans, n, s.comps[i], s.se + 1)
  }

  predicate CompStepsOk(scans: seq<ScanInfo>, n: nat, c: int, to: int)
    requires n < |scans|
  {
    forall k :: scans[n].ss <= k < to ==> StepOk(scans[n], LastAl(scans, n, c, k))
  }

  /** A script in progressive mode: every scan legal, and DC data sent for every component. */
  predicate ProgressiveOk(scans: seq<ScanInfo>, ncomps: int) {
    && (forall n :: 0 <= n < |scans| ==> CompsOk(scans[n], ncomps) && ParamsOk(scans[n]) && ProgressionOk(scans, n))
    && (forall c :: 0 <= c < ncomps ==> LastAl(scans, |scans|, c, 0) >= 0)
  }

  predicate SequentialParams(s: ScanInfo) {
    s.ss == 0 && s.se == 63 && s.ah == 0 && s.al == 0
  }

  /** Component c was sent in one of the first n scans. */
  predicate Sent(scans: seq<ScanInfo>, n: nat, c: int)
    requires n <= |scans|
  {
    exists m :: 0 <= m < n && c in scans[m].comps
  }

  /** No component of scan n was sent before. */
  predicate NoneSent(scans: seq<ScanInfo>, n: nat)
    requires n < |scans|
  {
    forall i :: 0 <= i < |scans[n].comps| ==> !Sent(scans, n, scans[n].comps[i])
  }

  /** A sequential script: every component in exactly one scan. */
  predicate SequentialOk(scans: seq<ScanInfo>, ncomps: int) {
    && (forall n :: 0 <= n < |scans| ==> CompsOk(scans[n], ncomps) && SequentialParams(scans[n]) && NoneSent(scans, n))
    && (forall c :: 0 <= c < ncomps ==> Sent(scans, |scans|, c))
  }

  predicate IsProgressive(scans: seq<ScanInfo>)
    requires scans != []
  {
    scans[0].ss != 0 || scans[0].se != 63
  }

  predicate ValidScript(scans: seq<ScanInfo>, ncomps: int) {
    && scans != []
    && if IsProgressive(scans) then ProgressiveOk(scans, ncomps) else SequentialOk(scans, ncomps)
  }

  /** The index checks on one scan. */
  method CheckComps(s: ScanInfo, ncomps: int) returns (ok: bool)
    ensures ok <==> CompsOk(s, ncomps)
  {
    if |s.comps| <= 0 || |s.comps| > MAX_COMPS_IN_SCAN {
      return false;
    }
    var ci := 0;
    while ci < |s.comps|
      invariant 0 <= ci <= |s.comps|
      invariant forall i :: 0 <= i < ci ==> 0 <= s.comps[i] < ncomps
      invariant forall i :: 0 < i < ci ==> s.comps[i - 1] < s.comps[i]
    {
      var thisi := s.comps[ci];
      if thisi < 0 || thisi >= ncomps {
        return false;
      }
      if ci > 0 && thisi <= s.comps[ci - 1] {
        return false;
      }
      ci := ci + 1;
    }
    return true;
  }

  lemma {:induction false} Increasing(s: ScanInfo, ncomps: int, i: int, j: int)
    requires CompsOk(s, ncomps) && 0 <= i < j < |s.comps|
    ensures s.comps[i] < s.comps[j]
    decreases j
  {
    if i < j - 1 {
      Increasing(s, ncomps, i, j - 1);
    }
  }

  /** The coefficient loop for component c: checks one row of last_bitpos and overwrites it. */
  method CheckRow(scans: seq<ScanInfo>, n: nat, c: int, lastBitpos: array2<int>) returns (ok: bool)
    requires n < |scans| && 0 <= c < lastBitpos.Length0 && lastBitpos.Length1 == 64
    requires ParamsOk(scans[n])
    requires forall k :: 0 <= k < 64 ==> lastBitpos[c, k] == LastAl(scans, n, c, k)
    modifies lastBitpos
    ensures ok <==> (scans[n].ss != 0 ==> LastAl(scans, n, c, 0) >= 0) && CompStepsOk(scans, n, c, scans[n].se + 1)
    ensures forall x, k :: 0 <= x < lastBitpos.Length0 && 0 <= k < 64 && x != c ==> lastBitpos[x, k] == old(lastBitpos[x, k])
    ensures ok ==> forall k :: 0 <= k < 64 ==>
      lastBitpos[c, k] == if scans[n].ss <= k <= scans[n].se then scans[n].al else LastAl(scans, n, c, k)
  {
    var s := scans[n];
    if s.ss != 0 && lastBitpos[c, 0] < 0 {
      return false;
    }
    var coefi := s.ss;
    while coefi <= s.se
      invariant s.ss <= coefi <= s.se + 1
      invariant CompStepsOk(scans, n, c, coefi)
      invariant forall k :: 0 <= k < 64 ==>
        lastBitpos[c, k] == if s.ss <= k < coefi then s.al else LastAl(scans, n, c, k)
      invariant forall x, k :: 0 <= x < lastBitpos.Length0 && 0 <= k < 64 && x != c ==> lastBitpos[x, k] == old(lastBitpos[x, k])
    {
      if lastBitpos[c, coefi] < 0 {
        if s.ah != 0 {
          assert !StepOk(s, LastAl(scans, n, c, coefi));
          return false;
        }
      } else {
        if s.ah != lastBitpos[c, coefi] || s.al != s.ah - 1 {
          assert !StepOk(s, LastAl(scans, n, c, coefi));
          return false;
        }
      }
      lastBitpos[c, coefi] := s.al;
      coefi := coefi + 1;
    }
    return true;
  }

  /** The component loop of a progressive scan. */
  method CheckProgression(scans: seq<ScanInfo>, n: nat, ncomps: int, lastBitpos: array2<int>) returns (ok: bool)
    requires n < |scans| && CompsOk(scans[n], ncomps) && ParamsOk(scans[n])
    requires lastBitpos.Length0 == ncomps && lastBitpos.Length1 == 64
    requires forall c, k :: 0 <= c < ncomps && 0 <= k < 64 ==> lastBitpos[c, k] == LastAl(scans, n, c, k)
    modifies lastBitpos
    ensures ok <==> ProgressionOk(scans, n)
    ensures ok ==> forall c, k :: 0 <= c < ncomps && 0 <= k < 64 ==> lastBitpos[c, k] == LastAl(scans, n + 1, c, k)
  {
    var s := scans[n];
    var ci := 0;
    while ci < |s.comps|
      invariant 0 <= ci <= |s.comps|
      invariant forall i :: 0 <= i < ci ==>
        && (s.ss != 0 ==> LastAl(scans, n, s.comps[i], 0) >= 0)
        && CompStepsOk(scans, n, s.comps[i], s.se + 1)
      invariant forall c, k :: 0 <= c < ncomps && 0 <= k < 64 ==>
        lastBitpos[c, k] == if c in s.comps[..ci] && s.ss <= k <= s.se then s.al else LastAl(scans, n, c, k)
    {
      forall i | 0 <= i < ci ensures s.comps[i] != s.comps[ci] {
        Increasing(s, ncomps, i, ci);
      }
      assert s.comps[..ci + 1] == s.comps[..ci] + [s.comps[ci]];
      var rowOk := CheckRow(scans, n, s.comps[ci], lastBitpos);
      if !rowOk {
        return false;
      }
      ci := ci + 1;
    }
    assert s.comps[..ci] == s.comps;
    return true;
  }

  /** The progressive half of validate_script. */
  method ValidateProgressive(scans: seq<ScanInfo>, ncomps: int) returns (ok: bool)
    requires 0 <= ncomps <= MAX_COMPONENTS
    ensures ok <==> ProgressiveOk(scans, ncomps)
  {
    var lastBitpos := new int[ncomps, 64]((_, _) => -1);
    var scanno := 0;
    while scanno < |scans|
      invariant 0 <= scanno <= |scans|
      invariant forall n :: 0 <= n < scanno ==> CompsOk(scans[n], ncomps) && ParamsOk(scans[n]) && ProgressionOk(scans, n)
      invariant forall c, k :: 0 <= c < ncomps && 0 <= k < 64 ==> lastBitpos[c, k] == LastAl(scans, scanno, c, k)
    {
      var s := scans[scanno];
      var compsOk := CheckComps(s, ncomps);
      if !compsOk {
        return false;
      }
      if s.ss < 0 || s.ss >= 64 || s.se < s.ss || s.se >= 64 || s.ah < 0 || s.ah > MAX_AH_AL || s.al < 0 || s.al > MAX_AH_AL {
        return false;
      }
      if s.ss == 0 {
        if s.se != 0 {
          return false;
        }
      } else if |s.comps| != 1 {
        return false;
      }
      var progOk := CheckProgression(scans, scanno, ncomps, lastBitpos);
      if !progOk {
        return false;
      }
      scanno := scanno + 1;
    }
    var ci := 0;
    while ci < ncomps
      invariant 0 <= ci <= ncomps
      invariant forall c :: 0 <= c < ci ==> LastAl(scans, |scans|, c, 0) >= 0
    {
      if lastBitpos[ci, 0] < 0 {
        return false;
      }
      ci := ci + 1;
    }
    return true;
  }

  /** The component loop of a sequential scan: no component twice. */
  method CheckSent(scans: seq<ScanInfo>, n: nat, ncomps: int, sent: array<bool>) returns (ok: bool)
    requires n < |scans| && CompsOk(scans[n], ncomps) && sent.Length == ncomps
    requires forall c :: 0 <= c < ncomps ==> (sent[c] <==> Sent(scans, n, c))
    modifies sent
    ensures ok <==> NoneSent(scans, n)
    ensures ok ==> forall c :: 0 <= c < ncomps ==> (sent[c] <==> Sent(scans, n + 1, c))
  {
    var s := scans[n];
    var ci := 0;
    while ci < |s.comps|
      invariant 0 <= ci <= |s.comps|
      invariant forall i :: 0 <= i < ci ==> !Sent(scans, n, s.comps[i])
      invariant forall c :: 0 <= c < ncomps ==> (sent[c] <==> Sent(scans, n, c) || c in s.comps[..ci])
    {
      forall i | 0 <= i < ci ensures s.comps[i] != s.comps[ci] {
        Increasing(s, ncomps, i, ci);
      }
      assert s.comps[..ci + 1] == s.comps[..ci] + [s.comps[ci]];
      var thisi := s.comps[ci];
      if sent[thisi] {
        return false;
      }
      sent[thisi] := true;
      ci := ci + 1;
    }
    assert s.comps[..ci] == s.comps;
    return true;
  }

  /** The sequential half of validate_script. */
  method ValidateSequential(scans: seq<ScanInfo>, ncomps: int) returns (ok: bool)
    requires 0 <= ncomps <= MAX_COMPONENTS
    ensures ok <==> SequentialOk(scans, ncomps)
  {
    var sent := new bool[ncomps](_ => false);
    var scanno := 0;
    while scanno < |scans|
      invariant 0 <= scanno <= |scans|
      invariant forall n :: 0 <= n < scanno ==> CompsOk(scans[n], ncomps) && SequentialParams(scans[n]) && NoneSent(scans, n)
      invariant forall c :: 0 <= c < ncomps ==> (sent[c] <==> Sent(scans, scanno, c))
    {
      var compsOk := CheckComps(scans[scanno], ncomps);
      if !compsOk {
        return false;
      }
      if !SequentialParams(scans[scanno]) {
        return false;
      }
      var onceOk := CheckSent(scans, scanno, ncomps, sent);
      if !onceOk {
        return false;
      }
      scanno := scanno + 1;
    }
    var ci := 0;
    while ci < ncomps
      invariant 0 <= ci <= ncomps
      invariant forall c :: 0 <= c < ci ==> Sent(scans, |scans|, c)
    {
      if !sent[ci] {
        return false;
      }
      ci := ci + 1;
    }
    return true;
  }

  /** validate_script; ERREXIT is a false result, progressive is cinfo->progressive_mode. */
  method ValidateScript(scans: seq<ScanInfo>, ncomps: int) returns (ok: bool, progressive: bool)
    requires 0 <= ncomps <= MAX_COMPONENTS
    ensures ok <==> ValidScript(scans, ncomps)
    ensures ok ==> (progressive <==> IsProgressive(scans))
  {
    progressive := false;
    if |scans| <= 0 {
      return false, false;
    }
    if scans[0].ss != 0 || scans[0].se != 63 {
      progressive := true;
      ok := ValidateProgressive(scans, ncomps);
    } else {
      ok := ValidateSequential(scans, ncomps);
    }
  }

  /** In an accepted script Ah is zero exactly when a coefficient is sent for the first time,
      and otherwise one above the new Al and equal to the last one. */
  lemma {:induction false} AcceptedStep(scans: seq<ScanInfo>, ncomps: int, n: nat, c: int, k: int)
    requires ProgressiveOk(scans, ncomps) && n < |scans| && Covers(scans[n], c, k)
    ensures var s, last := scans[n], LastAl(scans, n, c, k);
      && (s.ah == 0 <==> last == -1)
      && (s.ah != 0 ==> s.ah == last == s.al + 1)
      && LastAl(scans, n + 1, c, k) == s.al
  {
    LastAlRange(scans, ncomps, n, c, k);
    var i :| 0 <= i < |scans[n].comps| && scans[n].comps[i] == c;
    assert CompsOk(scans[n], ncomps) && ParamsOk(scans[n]) && ProgressionOk(scans, n);
    assert CompStepsOk(scans, n, scans[n].comps[i], scans[n].se + 1);
    assert StepOk(scans[n], LastAl(scans, n, c, k));
  }

  lemma {:induction false} LastAlRange(scans: seq<ScanInfo>, ncomps: int, n: nat, c: int, k: int)
    requires ProgressiveOk(scans, ncomps) && n <= |scans|
    ensures -1 <= LastAl(scans, n, c, k) <= MAX_AH_AL
  {
    if n > 0 {
      assert ParamsOk(scans[n - 1]);
      LastAlRange(scans, ncomps, n - 1, c, k);
    }
  }
}
