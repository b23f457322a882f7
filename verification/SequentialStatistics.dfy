// The statistics pass of the sequential encoder (htest_one_block, encode_mcu_gather): written
// separately from the output pass, it must count exactly the symbols that one emits.
module SequentialStatistics {
  import opened Arith
  import opened Coefficients
  import opened Tokens
  import opened AcFirst
  import opened AcRefine
  import opened SequentialScan
  import opened SequentialStream
  import opened SequentialEncoder
  import D = DcScan

  /** Everything the output pass emits for a scan; restart markers reset the predictions. */
  ghost function ScanTokens(x: Tables, pred: seq<int>, evs: seq<Event<seq<Unit>>>): seq<Token>
    requires EventsFit(x, |pred|, evs)
    decreases |evs|
  {
    if evs == [] then []
    else
      assert EventOk(x, |pred|, evs[0]);
      match evs[0]
      case Restart(num) => ScanTokens(x, NoPred(|pred|), evs[1..])
      case Item(mcu) => McuTokens(x, pred, mcu) + ScanTokens(x, PredAfter(x, pred, mcu), evs[1..])
  }

  /** No coefficient of the scan is out of range. */
  ghost predicate ScanInRange(x: Tables, pred: seq<int>, evs: seq<Event<seq<Unit>>>)
    requires EventsFit(x, |pred|, evs)
    decreases |evs|
  {
    if evs == [] then true
    else
      assert EventOk(x, |pred|, evs[0]);
      match evs[0]
      case Restart(num) => ScanInRange(x, NoPred(|pred|), evs[1..])
      case Item(mcu) => McuInRange(x, pred, mcu) && ScanInRange(x, PredAfter(x, pred, mcu), evs[1..])
  }

  /** A scan in range whose symbols all have codes can be coded, and conversely. */
  lemma {:induction false} CodableIff(x: Tables, pred: seq<int>, evs: seq<Event<seq<Unit>>>)
    requires McusOk(x, |pred|, evs)
    ensures Codable(x, pred, evs) <==> ScanInRange(x, pred, evs) && AllWritable(x, ScanTokens(x, pred, evs))
    decreases |evs|
  {
    hide TablesOk, McuTokens, McuInRange, McuOk, PredAfter, NoPred, Writable;
    if evs != [] {
      assert EventOk(x, |pred|, evs[0]);
      if evs[0].Restart? {
        CodableIff(x, NoPred(|pred|), evs[1..]);
      } else {
        var pred1 := PredAfter(x, pred, evs[0].x);
        CodableIff(x, pred1, evs[1..]);
        var a, b := McuTokens(x, pred, evs[0].x), ScanTokens(x, pred1, evs[1..]);
        if AllWritable(x, a + b) {
          TwoWritable(x, a, b);
        }
      }
    }
  }

  class Gatherer {
    /** Only the number of tables matters: they are still to be made. */
    ghost const tables: Tables
    const comps: nat
    const restartInterval: nat
    var counts: map<Token, nat>
    var lastDcVal: seq<int>
    var restartsToGo: nat
    /** What the output pass emits for the same blocks. */
    ghost var log: seq<Token>

    constructor (ghost x: Tables, n: nat, interval: nat)
      ensures tables == x && comps == n && restartInterval == interval
      ensures Valid() && log == [] && lastDcVal == NoPred(n) && restartsToGo == interval
    {
      tables, comps, restartInterval := x, n, interval;
      counts, log := map[], [];
      lastDcVal, restartsToGo := NoPred(n), interval;
    }

    function Count(t: Token): nat
      reads this`counts
    {
      if t in counts then counts[t] else 0
    }

    ghost predicate Tallied()
      reads this`counts, this`log
    {
      forall t: Token :: t.Sym? ==> Count(t) == multiset(log)[t]
    }

    ghost predicate Valid()
      reads this
    {
      Tallied() && |lastDcVal| == comps
    }

    /** counts[symbol]++, for a symbol that the output pass follows with some raw bits. */
    method CountSymbol(tbl: Table, s: nat, ghost raw: seq<Token>)
      requires Tallied() && forall i :: 0 <= i < |raw| ==> raw[i].Bits?
      modifies this`counts, this`log
      ensures Tallied() && log == old(log) + ([Sym(tbl, s)] + raw)
    {
      var t := Sym(tbl, s);
      counts := counts[t := Count(t) + 1];
      log := log + ([t] + raw);
    }

    method CountDiff(dc: nat, diff: int) returns (ok: bool)
      requires Tallied()
      modifies this`counts, this`log
      ensures Tallied() && (ok <==> NBits(Abs(diff)) <= MAX_COEF_BITS + 1)
      ensures ok ==> log == old(log) + D.DiffTokens(Dc(dc), diff)
    {
      hide NBits, Tallied;
      var temp := diff;
      if temp < 0 {
        temp := -temp;
      }
      var nbits := CountBits(temp);
      if nbits > MAX_COEF_BITS + 1 {
        return false;
      }
      CountSymbol(Dc(dc), nbits, if nbits > 0 then [Bits(MagnitudeBits(diff, nbits), nbits)] else []);
      ok := true;
    }

    /** One nonzero AC coefficient after r zeros. */
    method CountValue(ac: nat, r0: nat, v: int) returns (ok: bool)
      requires Tallied() && v != 0
      modifies this`counts, this`log
      ensures Tallied() && (ok <==> NBits(Abs(v)) <= MAX_COEF_BITS)
      ensures ok ==> log == old(log) + (Zrls(Ac(ac), r0 / 16) + ValueTokens(Ac(ac), r0 % 16, v))
    {
      hide NBits, Tallied;
      var r: nat := r0;
      assert log == old(log) + Zrls(Ac(ac), 0);
      while r > 15
        invariant r <= r0 && (r0 - r) % 16 == 0 && Tallied()
        invariant log == old(log) + Zrls(Ac(ac), (r0 - r) / 16)
      {
        ghost var n := (r0 - r) / 16;
        CountSymbol(Ac(ac), ZRL, []);
        assert Zrls(Ac(ac), n + 1) == Zrls(Ac(ac), n) + ([Sym(Ac(ac), ZRL)] + []);
        r := r - 16;
      }
      var temp := v;
      if temp < 0 {
        temp := -temp;
      }
      var nbits := CountFrom1(temp);
      if nbits > MAX_COEF_BITS {
        return false;
      }
      CountSymbol(Ac(ac), r * 16 + nbits, [Bits(MagnitudeBits(v, nbits), nbits)]);
      assert ValueTokens(Ac(ac), r, v) == [Sym(Ac(ac), r * 16 + nbits)] + [Bits(MagnitudeBits(v, nbits), nbits)];
      ok := true;
    }

    method CountAc(block: array<int>, order: seq<nat>, ac: nat) returns (ok: bool)
      requires Tallied() && Fits(block, order)
      modifies this`counts, this`log
      ensures Tallied()
      ensures ok <==> forall i :: 1 <= i <= 63 ==> NBits(Abs(View(block, order)[i])) <= MAX_COEF_BITS
      ensures ok ==> log == old(log) + AcTokens(ac, View(block, order), 1, 0)
    {
      hide View, NBits, Zrls, ValueTokens, AcTokens, Tallied, IsZigzag;
      ghost var z, all := View(block, order), log + AcTokens(ac, View(block, order), 1, 0);
      ZeroFits();
      var r: nat, k := 0, 1;
      while k < 64
        invariant 1 <= k <= 64 && r < k && Tallied()
        invariant forall i :: 1 <= i < k ==> NBits(Abs(z[i])) <= MAX_COEF_BITS
        invariant all == log + AcTokens(ac, z, k, r)
      {
        AcTokensStep(ac, z, k, r);
        var temp := Load(block, order, k);
        if temp == 0 {
          r := r + 1;
        } else {
          Regroup3(log, Zrls(Ac(ac), r / 16), ValueTokens(Ac(ac), r % 16, temp), AcTokens(ac, z, k + 1, 0));
          ok := CountValue(ac, r, temp);
          if !ok {
            return;
          }
          r := 0;
        }
        k := k + 1;
      }
      AcTokensEnd(ac, z, r);
      ok := true;
      if r > 0 {
        CountSymbol(Ac(ac), 0, []);
      }
    }

    /** htest_one_block. */
    method HtestOneBlock(r: Ref, order: seq<nat>, last: int) returns (ok: bool)
      requires Tallied() && Fits(r.block, order)
      modifies this`counts, this`log
      ensures Tallied() && (ok <==> BlockInRange(UnitOf(r, order), last))
      ensures ok ==> log == old(log) + BlockTokens(UnitOf(r, order), last)
    {
      hide NBits, AcTokens, D.DiffTokens, Tallied, IsZigzag;
      var dc := LoadDc(r.block, order);
      ok := CountDiff(r.dc, dc - last);
      if ok {
        ok := CountAc(r.block, order, r.ac);
        assert (old(log) + D.DiffTokens(Dc(r.dc), dc - last)) + AcTokens(r.ac, View(r.block, order), 1, 0)
            == old(log) + (D.DiffTokens(Dc(r.dc), dc - last) + AcTokens(r.ac, View(r.block, order), 1, 0));
      }
    }

    method CountBlocks(refs: seq<Ref>, order: seq<nat>) returns (ok: bool)
      requires Valid() && RefsFit(tables, comps, refs, order)
      modifies this`counts, this`log, this`lastDcVal
      ensures Valid() && McuOk(tables, comps, UnitsOf(refs, order))
      ensures ok <==> McuInRange(tables, old(lastDcVal), UnitsOf(refs, order))
      ensures ok ==> log == old(log) + McuTokens(tables, old(lastDcVal), UnitsOf(refs, order))
      ensures ok ==> lastDcVal == PredAfter(tables, old(lastDcVal), UnitsOf(refs, order))
    {
      hide BlockInRange, McuInRange, McuTokens, PredAfter, BlockTokens, UnitsOf, View, Tallied;
      ghost var mcu := UnitsOf(refs, order);
      UnitsOk(tables, comps, refs, order);
      ghost var pred, all := lastDcVal, log + McuTokens(tables, lastDcVal, mcu);
      assert mcu[0..] == mcu;
      var blkn := 0;
      while blkn < |refs|
        invariant 0 <= blkn <= |refs| && Valid() && McuOk(tables, comps, mcu[blkn..])
        invariant McuInRange(tables, pred, mcu) <==> McuInRange(tables, lastDcVal, mcu[blkn..])
        invariant all == log + McuTokens(tables, lastDcVal, mcu[blkn..])
        invariant PredAfter(tables, pred, mcu) == PredAfter(tables, lastDcVal, mcu[blkn..])
      {
        var r := refs[blkn];
        assert mcu[blkn..][0] == UnitOf(r, order) && mcu[blkn..][1..] == mcu[blkn + 1..];
        CountStep(tables, lastDcVal, mcu[blkn..], log);
        ok := HtestOneBlock(r, order, lastDcVal[r.ci]);
        if !ok {
          return;
        }
        var dc := LoadDc(r.block, order);
        lastDcVal := lastDcVal[r.ci := dc];
        blkn := blkn + 1;
      }
      CountEnd(tables, lastDcVal, log);
      assert mcu[blkn..] == [];
      ok := true;
    }

    /** encode_mcu_gather. */
    method GatherMcu(refs: seq<Ref>, order: seq<nat>) returns (ok: bool)
      requires Valid() && RefsFit(tables, comps, refs, order)
      modifies this`counts, this`log, this`lastDcVal, this`restartsToGo
      ensures Valid() && McuOk(tables, comps, UnitsOf(refs, order))
      ensures var mcu := UnitsOf(refs, order);
        var pred := if restartInterval > 0 && old(restartsToGo) == 0 then NoPred(comps) else old(lastDcVal);
        && (ok <==> McuInRange(tables, pred, mcu))
        && restartsToGo == TogoAfter(restartInterval, old(restartsToGo))
        && (ok ==> log == old(log) + McuTokens(tables, pred, mcu) && lastDcVal == PredAfter(tables, pred, mcu))
    {
      hide McuInRange, McuTokens, PredAfter, UnitsOf, View, Tallied, NoPred;
      if restartInterval > 0 {
        if restartsToGo == 0 {
          lastDcVal := NoPred(comps);
          restartsToGo := restartInterval;
        }
        restartsToGo := restartsToGo - 1;
      }
      ok := CountBlocks(refs, order);
    }

    /** The log with all that is still to be counted. */
    ghost function Owed(mcus: seq<seq<Unit>>): seq<Token>
      requires UnitsFit(tables, comps, mcus) && |lastDcVal| == comps
      reads this
    {
      RestartsFit(tables, comps, mcus, restartInterval, restartsToGo, 0);
      log + ScanTokens(tables, lastDcVal, WithRestarts(mcus, restartInterval, restartsToGo, 0))
    }

    ghost predicate InRangeFrom(mcus: seq<seq<Unit>>)
      requires UnitsFit(tables, comps, mcus) && |lastDcVal| == comps
      reads this
    {
      RestartsFit(tables, comps, mcus, restartInterval, restartsToGo, 0);
      ScanInRange(tables, lastDcVal, WithRestarts(mcus, restartInterval, restartsToGo, 0))
    }

    /** The next MCU of a scan of which `mcus` are still to come. */
    method GatherNext(refs: seq<Ref>, order: seq<nat>, ghost mcus: seq<seq<Unit>>) returns (ok: bool)
      requires Valid() && RefsFit(tables, comps, refs, order)
      requires mcus != [] && UnitsFit(tables, comps, mcus) && mcus[0] == UnitsOf(refs, order)
      modifies this`counts, this`log, this`lastDcVal, this`restartsToGo
      ensures Valid() && UnitsFit(tables, comps, mcus[1..])
      ensures ok ==> Owed(mcus[1..]) == old(Owed(mcus)) && (InRangeFrom(mcus[1..]) <==> old(InRangeFrom(mcus)))
      ensures !ok ==> !old(InRangeFrom(mcus))
    {
      hide McuTokens, PredAfter, UnitsOf, View, NoPred, IsZigzag, ScanTokens, ScanInRange, McuInRange, McuOk, WithRestarts, Tallied, EventsFit;
      TokensAhead(tables, log, lastDcVal, mcus, restartInterval, restartsToGo, 0);
      TokensNumber(tables, PredAfter(tables, if restartInterval > 0 && restartsToGo == 0 then NoPred(comps) else lastDcVal, mcus[0]),
                   mcus[1..], restartInterval, TogoAfter(restartInterval, restartsToGo), if restartInterval > 0 && restartsToGo == 0 then 1 else 0, 0);
      ok := GatherMcu(refs, order);
    }

    /** A whole scan: afterwards the counters hold, for every symbol, how often the output pass
        will emit it for the same MCUs and restart interval. */
    method GatherScan(mcus: seq<seq<Ref>>, order: seq<nat>) returns (ok: bool)
      requires Valid() && IsZigzag(order) && AllFit(mcus, order)
      requires forall i :: 0 <= i < |mcus| ==> RefsFit(tables, comps, mcus[i], order)
      requires log == [] && lastDcVal == NoPred(comps) && restartsToGo == restartInterval
      modifies this`counts, this`log, this`lastDcVal, this`restartsToGo
      ensures UnitsFit(tables, comps, ScanUnits(mcus, order))
      ensures ok <==> PassInRange(tables, comps, ScanUnits(mcus, order), restartInterval)
      ensures ok ==> forall t: Token :: t.Sym? ==>
        Count(t) == multiset(PassTokens(tables, comps, ScanUnits(mcus, order), restartInterval))[t]
    {
      hide UnitsOf, ScanUnits, IsZigzag, ScanTokens, ScanInRange, McuOk, WithRestarts, EventsFit, Owed, InRangeFrom, RefsFit, NoPred, PassInRange, PassTokens;
      ghost var us := ScanUnits(mcus, order);
      UnitsFitAll(tables, comps, mcus, order);
      OwedAtFirst(us);
      assert us[0..] == us;
      var i := 0;
      while i < |mcus|
        invariant 0 <= i <= |mcus| && Valid() && UnitsFit(tables, comps, us[i..])
        invariant PassTokens(tables, comps, us, restartInterval) == Owed(us[i..])
        invariant PassInRange(tables, comps, us, restartInterval) <==> InRangeFrom(us[i..])
      {
        assert us[i..][1..] == us[i + 1..];
        ok := GatherNext(mcus[i], order, us[i..]);
        if !ok {
          return;
        }
        i := i + 1;
      }
      assert us[i..] == [];
      OwedAtLast();
      ok := true;
    }

    lemma {:induction false} OwedAtFirst(us: seq<seq<Unit>>)
      requires UnitsFit(tables, comps, us) && log == [] && lastDcVal == NoPred(comps) && restartsToGo == restartInterval
      ensures Owed(us) == PassTokens(tables, comps, us, restartInterval)
      ensures InRangeFrom(us) <==> PassInRange(tables, comps, us, restartInterval)
    {
      hide ScanTokens, ScanInRange, WithRestarts, EventsFit;
      assert [] + PassTokens(tables, comps, us, restartInterval) == PassTokens(tables, comps, us, restartInterval);
    }

    lemma {:induction false} OwedAtLast()
      requires |lastDcVal| == comps
      ensures UnitsFit(tables, comps, []) && InRangeFrom([]) && Owed([]) == log
    {
      assert log + [] == log;
    }
  }

  ghost predicate UnitsFit(x: Tables, comps: nat, mcus: seq<seq<Unit>>) {
    forall i :: 0 <= i < |mcus| ==> McuOk(x, comps, mcus[i])
  }

  lemma {:induction false} UnitsFitAll(x: Tables, comps: nat, mcus: seq<seq<Ref>>, order: seq<nat>)
    requires AllFit(mcus, order) && forall i :: 0 <= i < |mcus| ==> RefsFit(x, comps, mcus[i], order)
    ensures UnitsFit(x, comps, ScanUnits(mcus, order))
  {
    hide View, IsZigzag;
    forall i | 0 <= i < |mcus| ensures McuOk(x, comps, ScanUnits(mcus, order)[i]) {
      UnitsOk(x, comps, mcus[i], order);
      hide McuOk;
    }
  }

  /** What the output pass emits for a scan of given MCUs and restart interval. */
  ghost function PassTokens(x: Tables, comps: nat, mcus: seq<seq<Unit>>, interval: nat): seq<Token>
    requires UnitsFit(x, comps, mcus)
  {
    RestartsFit(x, comps, mcus, interval, interval, 0);
    ScanTokens(x, NoPred(comps), WithRestarts(mcus, interval, interval, 0))
  }

  ghost predicate PassInRange(x: Tables, comps: nat, mcus: seq<seq<Unit>>, interval: nat)
    requires UnitsFit(x, comps, mcus)
  {
    RestartsFit(x, comps, mcus, interval, interval, 0);
    ScanInRange(x, NoPred(comps), WithRestarts(mcus, interval, interval, 0))
  }

  /** After optimisation no code is missing: if every symbol counted has a code, the scan can
      be coded. */
  lemma {:induction false} CountedIsCodable(x: Tables, comps: nat, mcus: seq<seq<Unit>>, interval: nat)
    requires AllMcusOk(x, comps, mcus) && UnitsFit(x, comps, mcus) && PassInRange(x, comps, mcus, interval)
    requires AllWritable(x, PassTokens(x, comps, mcus, interval))
    ensures PassCodable(x, comps, mcus, interval)
  {
    hide TablesOk, Codable, ScanTokens, ScanInRange, WithRestarts, EventsFit, Writable;
    RestartsOk(x, comps, mcus, interval, interval, 0);
    CodableIff(x, NoPred(comps), WithRestarts(mcus, interval, interval, 0));
  }

  /** One MCU in the tokens of a scan. */
  lemma {:induction false} TokensAhead(x: Tables, log: seq<Token>, pred: seq<int>, mcus: seq<seq<Unit>>, interval: nat, togo: nat, num: nat)
    requires UnitsFit(x, |pred|, mcus) && num < 8 && mcus != []
    ensures EventsFit(x, |pred|, WithRestarts(mcus, interval, togo, num)) && McuOk(x, |pred|, mcus[0])
    ensures var due := interval > 0 && togo == 0;
      var pred0, num1 := if due then NoPred(|pred|) else pred, if due then (num + 1) % 8 else num;
      var evs1 := WithRestarts(mcus[1..], interval, TogoAfter(interval, togo), num1);
      && EventsFit(x, |pred|, evs1)
      && log + ScanTokens(x, pred, WithRestarts(mcus, interval, togo, num))
         == (log + McuTokens(x, pred0, mcus[0])) + ScanTokens(x, PredAfter(x, pred0, mcus[0]), evs1)
      && (ScanInRange(x, pred, WithRestarts(mcus, interval, togo, num)) <==>
          McuInRange(x, pred0, mcus[0]) && ScanInRange(x, PredAfter(x, pred0, mcus[0]), evs1))
  {
    hide McuOk, McuTokens, McuInRange, PredAfter, NoPred, WithRestarts;
    var due := interval > 0 && togo == 0;
    var num1 := if due then (num + 1) % 8 else num;
    var evs1 := WithRestarts(mcus[1..], interval, TogoAfter(interval, togo), num1);
    RestartsUnfold(mcus, interval, togo, num);
    RestartsFit(x, |pred|, mcus, interval, togo, num);
    RestartsFit(x, |pred|, mcus[1..], interval, TogoAfter(interval, togo), num1);
    var item := [Item(mcus[0])] + evs1;
    var pred0 := if due then NoPred(|pred|) else pred;
    assert item[1..] == evs1 && EventOk(x, |pred|, item[0]);
    assert EventsFit(x, |pred|, item);
    assert ScanTokens(x, pred0, item) == McuTokens(x, pred0, mcus[0]) + ScanTokens(x, PredAfter(x, pred0, mcus[0]), evs1);
    Assoc3(log, McuTokens(x, pred0, mcus[0]), ScanTokens(x, PredAfter(x, pred0, mcus[0]), evs1));
    if due {
      assert ([Restart(num)] + item)[1..] == item;
    }
  }

  /** Which number the next restart marker gets makes no difference to the symbols. */
  lemma {:induction false} TokensNumber(x: Tables, pred: seq<int>, mcus: seq<seq<Unit>>, interval: nat, togo: nat, num: nat, num2: nat)
    requires UnitsFit(x, |pred|, mcus) && num < 8 && num2 < 8
    ensures EventsFit(x, |pred|, WithRestarts(mcus, interval, togo, num)) && EventsFit(x, |pred|, WithRestarts(mcus, interval, togo, num2))
    ensures ScanTokens(x, pred, WithRestarts(mcus, interval, togo, num)) == ScanTokens(x, pred, WithRestarts(mcus, interval, togo, num2))
    ensures ScanInRange(x, pred, WithRestarts(mcus, interval, togo, num)) <==> ScanInRange(x, pred, WithRestarts(mcus, interval, togo, num2))
    decreases |mcus|
  {
    hide McuOk, McuTokens, McuInRange, PredAfter, NoPred, ScanTokens, ScanInRange, WithRestarts, EventsFit;
    RestartsFit(x, |pred|, mcus, interval, togo, num);
    RestartsFit(x, |pred|, mcus, interval, togo, num2);
    if mcus == [] {
      NoRestarts(mcus, interval, togo, num, num2);
    } else {
      var due := interval > 0 && togo == 0;
      TokensAhead(x, [], pred, mcus, interval, togo, num);
      TokensAhead(x, [], pred, mcus, interval, togo, num2);
      var pred1 := PredAfter(x, if due then NoPred(|pred|) else pred, mcus[0]);
      TokensNumber(x, pred1, mcus[1..], interval, TogoAfter(interval, togo),
                   if due then (num + 1) % 8 else num, if due then (num2 + 1) % 8 else num2);
      NothingFirst(ScanTokens(x, pred, WithRestarts(mcus, interval, togo, num)));
      NothingFirst(ScanTokens(x, pred, WithRestarts(mcus, interval, togo, num2)));
    }
  }

  lemma {:induction false} NoRestarts(mcus: seq<seq<Unit>>, interval: nat, togo: nat, num: nat, num2: nat)
    requires mcus == []
    ensures WithRestarts(mcus, interval, togo, num) == WithRestarts(mcus, interval, togo, num2)
  {
  }

  lemma {:induction false} NothingFirst(ts: seq<Token>)
    ensures [] + ts == ts
  {
  }

  lemma {:induction false} Regroup3(l: seq<Token>, a: seq<Token>, b: seq<Token>, c: seq<Token>)
    ensures l + (a + (b + c)) == (l + (a + b)) + c
  {
  }

  lemma {:induction false} CountStep(x: Tables, pred: seq<int>, mcu: seq<Unit>, log: seq<Token>)
    requires McuOk(x, |pred|, mcu) && mcu != []
    ensures UnitOk(x, |pred|, mcu[0]) && McuOk(x, |pred|, mcu[1..])
    ensures var u, later := mcu[0], pred[mcu[0].ci := mcu[0].z[0]];
      && (McuInRange(x, pred, mcu) <==> BlockInRange(u, pred[u.ci]) && McuInRange(x, later, mcu[1..]))
      && PredAfter(x, pred, mcu) == PredAfter(x, later, mcu[1..])
      && log + McuTokens(x, pred, mcu) == (log + BlockTokens(u, pred[u.ci])) + McuTokens(x, later, mcu[1..])
  {
    hide BlockInRange, BlockTokens;
    var u := mcu[0];
    assert UnitOk(x, |pred|, u);
    Assoc3(log, BlockTokens(u, pred[u.ci]), McuTokens(x, pred[u.ci := u.z[0]], mcu[1..]));
  }

  lemma {:induction false} CountEnd(x: Tables, pred: seq<int>, log: seq<Token>)
    ensures McuInRange(x, pred, []) && PredAfter(x, pred, []) == pred && log + McuTokens(x, pred, []) == log
  {
    assert log + [] == log;
  }
}
