// The token stream between coefficient coding and bit packing, and the EOB-run
// bookkeeping that both kinds of progressive AC scan share.
module Tokens {
  import opened Arith

  datatype Table = Dc(no: nat) | Ac(no: nat)

  /** One emission: a Huffman symbol, n raw bits of value v, or a restart marker. */
  datatype Token =
    | Sym(tbl: Table, s: nat)
    | Bits(v: nat, n: nat)
    | Rst(num: nat)

  /** Reading n raw bits from the front of the available tokens. */
  datatype BitsRead = Got(v: nat, rest: seq<Token>) | NoData | WrongKind

  function ReadBits(ts: seq<Token>, n: nat): (r: BitsRead)
    ensures r.Got? ==> |r.rest| < |ts|
  {
    if ts == [] then NoData
    else if ts[0].Bits? && ts[0].n == n then Got(ts[0].v, ts[1..])
    else WrongKind
  }

  datatype SymRead = GotSym(s: nat, rest: seq<Token>) | NoSym | WrongSym

  function ReadSym(ts: seq<Token>, tbl: Table): (r: SymRead)
    ensures r.GotSym? ==> |r.rest| < |ts|
  {
    if ts == [] then NoSym
    else if ts[0].Sym? && ts[0].tbl == tbl then GotSym(ts[0].s, ts[1..])
    else WrongSym
  }

  /** Buffered correction bits, emitted one by one. */
  function BitTokens(bs: seq<bool>): seq<Token> {
    seq(|bs|, i requires 0 <= i < |bs| => Bits(if bs[i] then 1 else 0, 1))
  }

  lemma {:induction false} BitTokensConcat(a: seq<bool>, b: seq<bool>)
    ensures BitTokens(a + b) == BitTokens(a) + BitTokens(b)
  {
  }

  function BitToken(bit: bool): Token {
    Bits(if bit then 1 else 0, 1)
  }

  lemma {:induction false} BitTokensFront(bit: bool, bs: seq<bool>, rest: seq<Token>)
    ensures BitTokens([bit] + bs) + rest == [BitToken(bit)] + (BitTokens(bs) + rest)
  {
  }

  /** All arrivals of a suspending data source in order. */
  function Flat<T>(arrivals: seq<seq<T>>): seq<T> {
    if arrivals == [] then [] else arrivals[0] + Flat(arrivals[1..])
  }

  // ----- blocks and restart markers in scan order -----

  datatype Event<T> = Item(x: T) | Restart(num: nat)

  /** The events of a scan: a restart marker before an MCU whenever the interval is used up. */
  function WithRestarts<T>(items: seq<T>, interval: nat, togo: nat, num: nat): seq<Event<T>>
    decreases |items|, togo == 0
  {
    if items == [] then []
    else if interval > 0 && togo == 0 then [Restart(num)] + WithRestarts(items, interval, interval, (num + 1) % 8)
    else [Item(items[0])] + WithRestarts(items[1..], interval, if interval > 0 then togo - 1 else togo, num)
  }

  /** restarts_to_go after an MCU. */
  function TogoAfter(interval: nat, togo: nat): nat {
    if interval == 0 then togo else if togo == 0 then interval - 1 else togo - 1
  }

  // ----- EOB runs -----

  const MAX_EOBRUN: nat := 0x7FFF
  const MAX_CORR_BITS: nat := 1000

  /** How one block enters an AC scan: tokens emitted outright, whether it ends in an
      EOB, and the correction bits that follow that EOB. */
  datatype BlockCode = BlockCode(head: seq<Token>, eob: bool, tail: seq<bool>)

  /** emit_eobrun: the pending run, then the correction bits saved for it. */
  function EobTokens(tbl: Table, run: nat, corr: seq<bool>): seq<Token> {
    if run == 0 then []
    else
      var n := NBits(run) - 1;
      [Sym(tbl, n * 16)] + (if n > 0 then [Bits(run % Pow2(n), n)] else []) + BitTokens(corr)
  }

  datatype RunState = RunState(run: nat, corr: seq<bool>)

  /** The encoder's own invariant between blocks. */
  predicate RunOk(st: RunState) {
    && st.run < MAX_EOBRUN
    && |st.corr| <= MAX_CORR_BITS - 64 + 1
    && (st.corr != [] ==> st.run > 0)
  }

  /** Tokens and new pending state for one block. */
  function StepTokens(tbl: Table, st: RunState, b: BlockCode): seq<Token> {
    (if b.head == [] then [] else EobTokens(tbl, st.run, st.corr) + b.head)
    + (if ForcedOut(st, b) then EobTokens(tbl, Joined(st, b).run, Joined(st, b).corr) else [])
  }

  function StepState(st: RunState, b: BlockCode): RunState {
    if ForcedOut(st, b) then RunState(0, []) else Joined(st, b)
  }

  function Joined(st: RunState, b: BlockCode): RunState {
    var st0 := if b.head == [] then st else RunState(0, []);
    if b.eob then RunState(st0.run + 1, st0.corr + b.tail) else st0
  }

  predicate ForcedOut(st: RunState, b: BlockCode) {
    b.eob && (Joined(st, b).run == MAX_EOBRUN || |Joined(st, b).corr| > MAX_CORR_BITS - 64 + 1)
  }

  /** All that an AC scan emits from a pending state on. */
  function RunTokens(tbl: Table, st: RunState, evs: seq<Event<BlockCode>>): seq<Token>
    decreases |evs|
  {
    if evs == [] then EobTokens(tbl, st.run, st.corr)
    else match evs[0]
      case Restart(num) =>
        EobTokens(tbl, st.run, st.corr) + [Rst(num)] + RunTokens(tbl, RunState(0, []), evs[1..])
      case Item(b) =>
        StepTokens(tbl, st, b) + RunTokens(tbl, StepState(st, b), evs[1..])
  }

  /** Every block of an AC scan emits something or joins an EOB run. */
  predicate BlockCodeOk(b: BlockCode) {
    && (b.head == [] ==> b.eob)
    && (!b.eob ==> b.tail == [])
    && |b.tail| <= 63
  }

  predicate JoinsRun(e: Event<BlockCode>) {
    e.Item? && e.x.head == [] && e.x.eob
  }

  function Tails(evs: seq<Event<BlockCode>>): seq<bool> {
    if evs == [] then []
    else (if evs[0].Item? then evs[0].x.tail else []) + Tails(evs[1..])
  }

  /** The buffers never overflow: a step keeps RunOk, and while a block is being coded at
      most MAX_CORR_BITS bits are held. */
  lemma {:induction false} StepKeepsRunOk(st: RunState, b: BlockCode)
    requires RunOk(st) && BlockCodeOk(b)
    ensures RunOk(StepState(st, b))
    ensures Joined(st, b).run <= MAX_EOBRUN && |st.corr| + |b.tail| <= MAX_CORR_BITS
    ensures |Joined(st, b).corr| <= MAX_CORR_BITS
  {
  }

  /** How many of the coming events join the pending run before it is emitted. */
  function RunMore(st: RunState, evs: seq<Event<BlockCode>>): (j: nat)
    ensures j <= |evs|
    decreases |evs|
  {
    if evs == [] || !JoinsRun(evs[0]) then 0
    else if ForcedOut(st, evs[0].x) then 1
    else 1 + RunMore(Joined(st, evs[0].x), evs[1..])
  }

  lemma {:induction false} RunJoins(tbl: Table, st: RunState, evs: seq<Event<BlockCode>>)
    requires evs != [] && JoinsRun(evs[0])
    ensures RunTokens(tbl, st, evs) ==
      (if ForcedOut(st, evs[0].x)
       then EobTokens(tbl, st.run + 1, st.corr + evs[0].x.tail) + RunTokens(tbl, RunState(0, []), evs[1..])
       else RunTokens(tbl, Joined(st, evs[0].x), evs[1..]))
  {
    hide EobTokens;
    var b := evs[0].x;
    var forced := EobTokens(tbl, Joined(st, b).run, Joined(st, b).corr);
    assert StepTokens(tbl, st, b) == if ForcedOut(st, b) then forced else [];
  }

  lemma {:induction false} Assoc3<T>(a: seq<T>, b: seq<T>, c: seq<T>)
    ensures (a + b) + c == a + (b + c)
  {
  }

  lemma {:induction false} Assoc4<T>(e: seq<T>, h: seq<T>, f: seq<T>, l: seq<T>)
    ensures ((e + h) + f) + l == e + ((([] + h) + f) + l)
  {
    assert [] + h == h;
    assert (e + h) + f == e + (h + f);
    assert (e + (h + f)) + l == e + ((h + f) + l);
  }

  lemma {:induction false} RunEnds(tbl: Table, st: RunState, evs: seq<Event<BlockCode>>)
    requires evs == [] || evs[0].Restart? || evs[0].x.head != []
    ensures RunTokens(tbl, st, evs) == EobTokens(tbl, st.run, st.corr) + RunTokens(tbl, RunState(0, []), evs)
  {
    var e, none := EobTokens(tbl, st.run, st.corr), EobTokens(tbl, 0, []);
    assert none == [];
    hide EobTokens;
    if evs == [] {
      assert e + [] == e;
    } else if evs[0].Restart? {
      var later := RunTokens(tbl, RunState(0, []), evs[1..]);
      Assoc4(e, [], [Rst(evs[0].num)], later);
      assert e + [] == e;
    } else {
      var b := evs[0].x;
      var forced := if ForcedOut(st, b) then EobTokens(tbl, Joined(st, b).run, Joined(st, b).corr) else [];
      Assoc4(e, b.head, forced, RunTokens(tbl, StepState(st, b), evs[1..]));
    }
  }

  /** A pending run is always emitted as one EOB symbol that counts the pending blocks and
      the blocks that still join, followed by all their correction bits. */
  lemma {:induction false} RunSplit(tbl: Table, st: RunState, evs: seq<Event<BlockCode>>)
    requires RunOk(st) && st.run > 0
    requires forall i :: 0 <= i < |evs| && evs[i].Item? ==> BlockCodeOk(evs[i].x)
    ensures var j := RunMore(st, evs);
      && (forall i :: 0 <= i < j ==> JoinsRun(evs[i]))
      && st.run + j <= MAX_EOBRUN
      && RunTokens(tbl, st, evs)
         == EobTokens(tbl, st.run + j, st.corr + Tails(evs[..j])) + RunTokens(tbl, RunState(0, []), evs[j..])
    decreases |evs|
  {
    hide EobTokens;
    var j := RunMore(st, evs);
    if j == 0 {
      RunEnds(tbl, st, evs);
      assert st.corr + Tails(evs[..0]) == st.corr;
      assert evs[0..] == evs;
    } else {
      var b := evs[0].x;
      RunJoins(tbl, st, evs);
      StepKeepsRunOk(st, b);
      assert evs[..1][1..] == [] && evs[..1][0] == evs[0];
      if ForcedOut(st, b) {
        assert Tails(evs[..1]) == b.tail + Tails([]) == b.tail;
      } else {
        var js, st1 := j - 1, Joined(st, b);
        RunSplit(tbl, st1, evs[1..]);
        assert evs[..j][1..] == evs[1..][..js] && evs[..j][0] == evs[0];
        assert evs[1..][js..] == evs[j..];
        assert st1.corr + Tails(evs[1..][..js]) == st.corr + Tails(evs[..j]);
        forall i | 0 <= i < j ensures JoinsRun(evs[i]) {
          assert i > 0 ==> evs[i] == evs[1..][i - 1];
        }
      }
    }
  }

  /** The decoder's reading of an EOBn symbol recovers the run length. */
  lemma {:induction false} EobValue(run: nat)
    requires 0 < run <= MAX_EOBRUN
    ensures var n := NBits(run) - 1; 0 <= n <= 14 && Pow2(n) + run % Pow2(n) == run
    ensures NBits(run) == 1 ==> run == 1
  {
    NBitsRange(run);
    var n := NBits(run) - 1;
    assert Pow2(n + 1) == 2 * Pow2(n);
    DivUnique(run, Pow2(n), 1, run - Pow2(n));
    assert MAX_EOBRUN < Pow2(15) by { Pow2Values(); }
    NBitsBound(run, 15);
    if n == 0 {
      assert Pow2(0) == 1 && Pow2(1) == 2;
    }
  }

  lemma {:induction false} Pow2Values()
    ensures Pow2(4) == 16 && Pow2(8) == 256 && Pow2(10) == 1024 && Pow2(11) == 2048
    ensures Pow2(15) == 0x8000 && Pow2(16) == 0x10000
  {
    assert Pow2(4) == 16;
    assert Pow2(8) == 256;
    assert Pow2(12) == 4096;
  }
}
