// The emissions of a scan as bytes (emit_symbol, emit_bits and emit_restart of jcphuff.c), and
// what a reader that asks for symbols, bits and restart markers finds in those bytes.
module TokenBytes {
  import opened Arith
  import opened BitStrings
  import opened BitPacking
  import opened Tokens
  import opened HuffmanCodes
  import opened DerivedTables
  import opened SequentialScan
  import opened SequentialStream
  import E = SequentialEncoder
  import W = BitWriter

  /** A symbol with a code, bits that fit, or one of the eight restart markers. */
  predicate Sendable(x: Tables, t: Token) {
    if t.Rst? then t.num < 8 else Writable(x, t)
  }

  ghost predicate AllSendable(x: Tables, ts: seq<Token>) {
    forall i :: 0 <= i < |ts| ==> Sendable(x, ts[i])
  }

  /** The bytes of ts when `bits` have already been put into the current segment. */
  ghost function StreamBytes(x: Tables, bits: seq<Bit>, ts: seq<Token>): seq<Byte>
    requires AllSendable(x, ts)
    decreases |ts|
  {
    if ts == [] then Finished(bits)
    else
      assert Sendable(x, ts[0]);
      if ts[0].Rst? then Finished(bits) + (RstMarker(ts[0].num) + StreamBytes(x, [], ts[1..]))
      else StreamBytes(x, bits + TokenBits(x, ts[0]), ts[1..])
  }

  // ----- asking -----

  datatype Answer = Answer(v: nat, s: Stream) | NoAnswer

  function From(s: Stream, r: Read): Answer {
    match r
    case Taken(v, rest) => Answer(v, s.(bits := rest))
    case Short => NoAnswer
  }

  /** HUFF_DECODE with one of the scan's tables. */
  ghost function AskSymbol(x: Tables, s: Stream, tbl: Table): (o: Answer)
    requires Readable(x)
    ensures o.Answer? ==> |o.s.bits| < |s.bits|
  {
    match tbl
    case Dc(no) => if no < |x.dc| then assert TblOk(x.dc[no]); From(s, TakeSymbol(x.dc[no], s.bits)) else NoAnswer
    case Ac(no) => if no < |x.ac| then assert TblOk(x.ac[no]); From(s, TakeSymbol(x.ac[no], s.bits)) else NoAnswer
  }

  /** CHECK_BIT_BUFFER and GET_BITS. */
  function AskBits(s: Stream, n: nat): (o: Answer)
    ensures o.Answer? ==> |o.s.bits| <= |s.bits|
  {
    From(s, TakeBits(s.bits, n))
  }

  /** Asking for the kinds of ts in turn gives exactly the values of ts, and leads to e. */
  ghost predicate Leads(x: Tables, s: Stream, ts: seq<Token>, e: Stream)
    requires Readable(x)
    decreases |ts|
  {
    if ts == [] then s == e
    else match ts[0]
      case Sym(tbl, v) => var o := AskSymbol(x, s, tbl); o.Answer? && o.v == v && Leads(x, o.s, ts[1..], e)
      case Bits(v, n) => var o := AskBits(s, n); o.Answer? && o.v == v && Leads(x, o.s, ts[1..], e)
      case Rst(num) => s.ending == 0xD0 + num && Leads(x, Open(s.after), ts[1..], e)
  }

  /** Requests of the two kinds that tokens are made of. */
  lemma {:induction false} LeadsSym(x: Tables, s: Stream, ts: seq<Token>, e: Stream, tbl: Table)
    requires Readable(x) && Leads(x, s, ts, e)
    ensures var r := ReadSym(ts, tbl);
      r.GotSym? ==> var o := AskSymbol(x, s, tbl); o.Answer? && o.v == r.s && Leads(x, o.s, r.rest, e)
  {
    hide Readable, AskSymbol, AskBits, Open;
  }

  lemma {:induction false} LeadsBits(x: Tables, s: Stream, ts: seq<Token>, e: Stream, n: nat)
    requires Readable(x) && Leads(x, s, ts, e)
    ensures var r := ReadBits(ts, n);
      r.Got? ==> var o := AskBits(s, n); o.Answer? && o.v == r.v && Leads(x, o.s, r.rest, e)
  {
    hide Readable, AskSymbol, AskBits, Open;
  }

  lemma {:induction false} LeadsRestart(x: Tables, s: Stream, ts: seq<Token>, e: Stream, num: nat)
    requires Readable(x) && Leads(x, s, ts, e) && ts != [] && ts[0] == Rst(num)
    ensures s.ending == 0xD0 + num && Leads(x, Open(s.after), ts[1..], e)
  {
    hide Readable, AskSymbol, AskBits, Open;
  }

  // ----- what was sent is what is found -----

  lemma {:induction false} SymbolFound(x: Tables, t: Token, s: Stream, rest: seq<Bit>)
    requires TablesOk(x) && Readable(x) && t.Sym? && Writable(x, t) && s.bits == TokenBits(x, t) + rest
    ensures AskSymbol(x, s, t.tbl) == Answer(t.s, s.(bits := rest))
  {
    hide TokenBits, TblOk, TakeSymbol, TableOk, Total;
    assert if t.tbl.Dc? then t.tbl.no < |x.dc| else t.tbl.no < |x.ac|;
    SymbolTaken(x, t.tbl.Dc?, t.tbl.no, t.s, rest);
  }

  lemma {:induction false} BitsFound(x: Tables, t: Token, s: Stream, rest: seq<Bit>)
    requires t.Bits? && Writable(x, t) && s.bits == TokenBits(x, t) + rest
    ensures AskBits(s, t.n) == Answer(t.v, s.(bits := rest))
  {
    hide BitsOf, TakeBits;
    BitsTaken(t.v, t.n, rest);
  }

  /** Main result for bytes: whatever a scan sends, a reader that makes the same requests in the
      same order gets the same answers, and is left with the padding of the last byte, the
      marker that follows the scan and the input after that. */
  lemma {:induction false} Found(x: Tables, bits: seq<Bit>, ts: seq<Token>, tail: seq<Byte>) returns (rest: seq<Bit>)
    requires TablesOk(x) && AllSendable(x, ts) && Data(tail) == []
    ensures Readable(x) && |rest| <= 7
    ensures var s := Open(StreamBytes(x, bits, ts) + tail);
      bits <= s.bits && Leads(x, s.(bits := s.bits[|bits|..]), ts, Stream(rest, Marker(tail), AfterMarker(tail)))
    decreases |ts|
  {
    TablesReadable(x);
    hide TablesOk, Readable, TokenBits, AskSymbol, AskBits, Open, Finished, Data, Marker, AfterMarker, RstMarker, W.Padding, Writable;
    if ts == [] {
      FinishedData(bits, tail);
      rest := W.Padding(|bits|);
      NothingBefore(bits, rest);
    } else {
      assert Sendable(x, ts[0]);
      if ts[0].Rst? {
        rest := RestartFound(x, bits, ts, tail);
      } else {
        rest := Found(x, bits + TokenBits(x, ts[0]), ts[1..], tail);
        var s := Open(StreamBytes(x, bits, ts) + tail);
        BitsBefore(bits, TokenBits(x, ts[0]), s.bits);
        var from, after := s.(bits := s.bits[|bits|..]), s.bits[|bits + TokenBits(x, ts[0])|..];
        if ts[0].Sym? {
          SymbolFound(x, ts[0], from, after);
        } else {
          BitsFound(x, ts[0], from, after);
        }
        assert from.(bits := after) == s.(bits := after);
      }
    }
  }

  lemma {:induction false} RestartFound(x: Tables, bits: seq<Bit>, ts: seq<Token>, tail: seq<Byte>) returns (rest: seq<Bit>)
    requires TablesOk(x) && AllSendable(x, ts) && Data(tail) == [] && ts != [] && ts[0].Rst? && ts[0].num < 8
    ensures Readable(x) && |rest| <= 7
    ensures var s := Open(StreamBytes(x, bits, ts) + tail);
      bits <= s.bits && Leads(x, s.(bits := s.bits[|bits|..]), ts, Stream(rest, Marker(tail), AfterMarker(tail)))
    decreases |ts|, 0
  {
    TablesReadable(x);
    hide TablesOk, Readable, TokenBits, AskSymbol, AskBits, Open, Finished, Data, Marker, AfterMarker, RstMarker, W.Padding;
    var num, later := ts[0].num, StreamBytes(x, [], ts[1..]);
    rest := Found(x, [], ts[1..], tail);
    MarkerTail(num, later + tail);
    FinishedData(bits, RstMarker(num) + (later + tail));
    SequentialStream.Joined(Finished(bits), RstMarker(num), later, tail);
    var s := Open(later + tail);
    assert s.bits[0..] == s.bits;
    NothingBefore(bits, W.Padding(|bits|));
  }

  // ----- sending -----

  /** Everything but the segment before it: a restart marker ends one. */
  lemma {:induction false} RestartSent(x: Tables, base: seq<Byte>, bits: seq<Bit>, ts: seq<Token>)
    requires AllSendable(x, ts) && ts != [] && ts[0].Rst? && ts[0].num < 8
    ensures base + StreamBytes(x, bits, ts) == (base + Finished(bits) + [0xFF, 0xD0 + ts[0].num]) + StreamBytes(x, [], ts[1..])
  {
    hide Finished;
    assert Sendable(x, ts[0]);
    var later := StreamBytes(x, [], ts[1..]);
    assert base + (Finished(bits) + (RstMarker(ts[0].num) + later)) == (base + Finished(bits) + RstMarker(ts[0].num)) + later;
  }

  lemma {:induction false} OneByte(t: HuffTbl, isDC: bool, c: CTbl)
    requires TableOk(t, isDC, c)
    ensures |c.ehufsi| == |c.ehufco| == 256
  {
    hide Total, Kraft, LengthAt, CodeAt;
  }

  /** emit_bits with the code of a symbol, or with bits. */
  method Emit(w: W.Writer, x: Tables, t: Token)
    requires TablesOk(x) && w.Valid() && !t.Rst? && Writable(x, t) && (t.Bits? ==> 1 <= t.n <= 16)
    modifies w`out, w`putBuffer, w`putBits, w`bits
    ensures w.Valid() && w.bits == old(w.bits) + TokenBits(x, t)
  {
    hide BitsOf, Pow2, Encodes, Legal, W.Holds, W.Writer.Valid;
    var ok;
    match t
    case Sym(tbl, s) =>
      var c := TableOf(x, tbl);
      assert TableOk(if tbl.Dc? then x.dc[tbl.no] else x.ac[tbl.no], tbl.Dc?, c);
      OneByte(if tbl.Dc? then x.dc[tbl.no] else x.ac[tbl.no], tbl.Dc?, c);
      E.CodeFits(if tbl.Dc? then x.dc[tbl.no] else x.ac[tbl.no], tbl.Dc?, c, s);
      ok := w.EmitBits(c.ehufco[s], c.ehufsi[s]);
    case Bits(v, n) =>
      DivUnique(v, Pow2(n), 0, v);
      ok := w.EmitBits(v, n);
  }

  /** emit_restart: the last byte filled up, then the marker. */
  method EmitRestart(w: W.Writer, num: nat)
    requires w.Valid() && num < 8
    modifies w`out, w`putBuffer, w`putBits, w`bits, w`base
    ensures w.Valid() && w.bits == [] && w.base == old(w.base) + Finished(old(w.bits)) + [0xFF, 0xD0 + num]
  {
    hide Stuff, Pack, W.Padding, W.Writer.Valid;
    w.FlushBits();
    w.EmitMarker(0xD0 + num);
  }

  /** The emissions of a scan, one after the other, then the final flush. */
  method Send(x: Tables, ts: seq<Token>) returns (bytes: seq<Byte>)
    requires TablesOk(x) && AllSendable(x, ts) && forall i :: 0 <= i < |ts| && ts[i].Bits? ==> 1 <= ts[i].n <= 16
    ensures bytes == StreamBytes(x, [], ts)
  {
    hide TablesOk, Writable, TokenBits, Finished, W.Writer.Valid;
    var w := new W.Writer();
    var i := 0;
    assert ts[0..] == ts && w.base + StreamBytes(x, w.bits, ts) == StreamBytes(x, [], ts);
    while i < |ts|
      invariant 0 <= i <= |ts| && w.Valid()
      invariant w.base + StreamBytes(x, w.bits, ts[i..]) == StreamBytes(x, [], ts)
    {
      assert Sendable(x, ts[i]) && ts[i..][0] == ts[i] && ts[i..][1..] == ts[i + 1..];
      if ts[i].Rst? {
        RestartSent(x, w.base, w.bits, ts[i..]);
        EmitRestart(w, ts[i].num);
      } else {
        Emit(w, x, ts[i]);
      }
      i := i + 1;
    }
    assert ts[i..] == [];
    ghost var base, bits := w.base, w.bits;
    w.FlushBits();
    bytes := w.out;
    AllOut(base, bits);
  }

  lemma {:induction false} AllOut(base: seq<Byte>, bits: seq<Bit>)
    ensures base + Stuff(Pack(bits + W.Padding(|bits|))) == base + Finished(bits)
  {
    hide Stuff, Pack, W.Padding;
  }
}
