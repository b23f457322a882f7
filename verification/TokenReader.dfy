// The bit reader asked for the tokens of a scan while part of the input may still have to
// arrive: what it answers is what the complete input holds.
module TokenReader {
  import opened BitStrings
  import opened BitPacking
  import opened Tokens
  import opened HuffmanCodes
  import opened HuffmanDecoding
  import opened SequentialScan
  import opened SequentialStream
  import opened SequentialSuspend
  import opened TokenBytes
  import R = BitReader
  import S = SequentialDecoder

  /** A segment known up to some point, with the input that is still to arrive. */
  ghost function Extend(bits: seq<Bit>, ending: (Byte, seq<Byte>), later: seq<Byte>): Stream {
    if ending.0 != 0 then Stream(bits, ending.0, ending.1 + later)
    else
      var s := Open(ending.1 + later);
      Stream(bits + s.bits, s.ending, s.after)
  }

  /** All that a reader will see. */
  ghost function Whole(rd: R.Reader, later: seq<Byte>): Stream
    reads rd
  {
    Extend(rd.Ahead(), rd.Ending(), later)
  }

  /** Data, marker and what follows, when the input goes on. */
  lemma {:induction false} DataSplit(input: seq<Byte>, more: seq<Byte>)
    ensures Marker(input) == 0 ==>
      && Data(input + more) == Data(input) + Data(AfterMarker(input) + more)
      && Marker(input + more) == Marker(AfterMarker(input) + more)
      && AfterMarker(input + more) == AfterMarker(AfterMarker(input) + more)
    decreases |input|
  {
    hide NextByte;
    NextMore(input, more);
    var n := NextByte(input);
    if n.Datum? {
      DataSplit(n.rest, more);
    } else {
      assert [] + Data(input + more) == Data(input + more);
    }
  }

  /** Arrival of input moves it from what is to come to what is there. */
  lemma {:induction false} Arrives(gb: nat, n: nat, input: seq<Byte>, here: seq<Byte>, later: seq<Byte>)
    ensures Extend(R.Coming(gb, n, 0, input), (Marker(input), AfterMarker(input)), here + later)
         == Extend(R.Coming(gb, n, 0, input + here), (Marker(input + here), AfterMarker(input + here)), later)
  {
    hide Data, Marker, AfterMarker, ToBits, R.Held;
    DataMore(input, here);
    DataSplit(input, here);
    var a, b, h := AfterMarker(input), AfterMarker(input + here), R.Held(gb, n);
    if Marker(input) != 0 {
      assert (a + here) + later == a + (here + later);
    } else {
      ToBitsConcat(Data(input), Data(a + here));
      assert a + (here + later) == (a + here) + later;
      DataMore(a + here, later);
      DataSplit(a + here, later);
      if Marker(input + here) == 0 {
        ToBitsConcat(Data(a + here), Data(AfterMarker(a + here) + later));
      }
      Regroup(h, ToBits(Data(input)), ToBits(Data(a + here)), ToBits(Data(b + later)));
    }
  }

  lemma {:induction false} Regroup(h: seq<Bit>, p: seq<Bit>, q: seq<Bit>, r: seq<Bit>)
    ensures (h + p) + (q + r) == (h + (p + q)) + r && (h + p) + q == h + (p + q)
  {
  }

  lemma {:induction false} ArrivesMarked(bits: seq<Bit>, marker: Byte, input: seq<Byte>, here: seq<Byte>, later: seq<Byte>)
    requires marker != 0
    ensures Extend(bits, (marker, input), here + later) == Extend(bits, (marker, input + here), later)
  {
    assert input + (here + later) == (input + here) + later;
  }

  // ----- asking the reader -----

  /** d is the decoder's form of table tbl. */
  ghost predicate TableFor(x: Tables, tbl: Table, d: DTbl) {
    Readable(x) && DTblOk(d) &&
    match tbl
    case Dc(no) => no < |x.dc| && x.dc[no] == d.pub
    case Ac(no) => no < |x.ac| && x.ac[no] == d.pub
  }

  lemma {:induction false} AskIsTake(x: Tables, tbl: Table, d: DTbl, s: Stream)
    requires TableFor(x, tbl, d)
    ensures TblOk(d.pub) && AskSymbol(x, s, tbl) == From(s, TakeSymbol(d.pub, s.bits))
  {
    S.DTblIsOk(d);
    hide DTblOk, TakeSymbol, Shape, Total, FitsUpTo;
  }

  /** A symbol found in what is there is found in the whole, and what is left extends likewise. */
  lemma {:induction false} SymbolExtends(t: HuffTbl, a: seq<Bit>, b: seq<Bit>, v: nat, ending: (Byte, seq<Byte>), later: seq<Byte>)
    requires TblOk(t) && TakeSymbol(t, a) == Taken(v, b)
    ensures From(Extend(a, ending, later), TakeSymbol(t, Extend(a, ending, later).bits)) == Answer(v, Extend(b, ending, later))
  {
    hide TakeSymbol, Open, Shape, Total, FitsUpTo;
    if ending.0 == 0 {
      SymbolMore(t, a, Open(ending.1 + later).bits);
    }
  }

  lemma {:induction false} BitsExtend(a: seq<Bit>, b: seq<Bit>, n: nat, v: nat, ending: (Byte, seq<Byte>), later: seq<Byte>)
    requires TakeBits(a, n) == Taken(v, b)
    ensures AskBits(Extend(a, ending, later), n) == Answer(v, Extend(b, ending, later))
  {
    hide TakeBits, Open;
    if ending.0 == 0 {
      BitsMore(a, n, Open(ending.1 + later).bits);
    }
  }

  /** The reader can be asked for ts in turn, and will then be at e. */
  ghost predicate Follows(rd: R.Reader, x: Tables, ts: seq<Token>, later: seq<Byte>, e: Stream)
    reads rd
  {
    rd.Valid() && !rd.insufficientData && Readable(x) && Leads(x, Whole(rd, later), ts, e)
  }

  /** HUFF_DECODE when the next token is a symbol of the table. */
  method NextSym(rd: R.Reader, ghost x: Tables, d: DTbl, ghost tbl: Table, ghost ts: seq<Token>, ghost later: seq<Byte>, ghost e: Stream)
    returns (ok: bool, sym: nat)
    requires Follows(rd, x, ts, later, e) && TableFor(x, tbl, d) && ReadSym(ts, tbl).GotSym?
    modifies rd
    ensures rd.Ending() == old(rd.Ending()) && (!ok ==> rd.Ending().0 == 0)
    ensures ok ==> R.Listed(d.pub, sym) && sym < 256 && ts[0] == Sym(tbl, sym) && Follows(rd, x, ts[1..], later, e)
  {
    hide DTblOk, Readable, TakeSymbol, AskSymbol, Leads, Extend, R.Coming, R.Listed;
    ghost var a, s, ending := rd.Ahead(), Whole(rd, later), rd.Ending();
    AskIsTake(x, tbl, d, s);
    LeadsSym(x, s, ts, e, tbl);
    ok, sym := S.ReadSymbol(rd, d);
    if rd.insufficientData {
      NothingLater(a, ending, later);
    } else if ok {
      SymbolExtends(d.pub, a, rd.Ahead(), sym, ending, later);
    }
  }

  lemma {:induction false} NothingLater(a: seq<Bit>, ending: (Byte, seq<Byte>), later: seq<Byte>)
    requires ending.0 != 0
    ensures Extend(a, ending, later).bits == a
  {
  }

  /** GET_BITS when the next token is n bits. */
  method NextBits(rd: R.Reader, ghost x: Tables, n: nat, ghost ts: seq<Token>, ghost later: seq<Byte>, ghost e: Stream) returns (ok: bool, v: nat)
    requires Follows(rd, x, ts, later, e) && n <= 25 && ReadBits(ts, n).Got?
    modifies rd
    ensures rd.Ending() == old(rd.Ending()) && (!ok ==> rd.Ending().0 == 0)
    ensures ok ==> ts[0] == Bits(v, n) && Follows(rd, x, ts[1..], later, e)
  {
    hide Readable, TakeBits, AskSymbol, Leads, Extend, R.Coming;
    ghost var a, s, ending := rd.Ahead(), Whole(rd, later), rd.Ending();
    LeadsBits(x, s, ts, e, n);
    ok, v := S.ReadRaw(rd, n);
    if rd.insufficientData {
      NothingLater(a, ending, later);
    } else if ok {
      BitsExtend(a, rd.Ahead(), n, v, ending, later);
    }
  }

  /** If a marker ends the last segment, one ends every segment before. */
  lemma {:induction false} EndingComes(x: Tables, s: Stream, ts: seq<Token>, e: Stream)
    requires Readable(x) && Leads(x, s, ts, e) && e.ending != 0
    ensures s.ending != 0
    decreases |ts|
  {
    hide Readable, TakeSymbol, TakeBits, Open;
    if ts != [] {
      match ts[0]
      case Sym(tbl, _) => EndingComes(x, AskSymbol(x, s, tbl).s, ts[1..], e);
      case Bits(_, n) => EndingComes(x, AskBits(s, n).s, ts[1..], e);
      case Rst(_) =>
    }
  }
}
