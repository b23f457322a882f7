// A whole progressive image through bytes: every scan of an accepted script is written with its
// own Huffman tables and read back from those bytes.
module ProgressiveBytes {
  import opened BitPacking
  import opened Tokens
  import opened ScanScript
  import opened ProgressiveImage
  import opened SequentialScan
  import opened SequentialStream
  import opened TokenBytes
  import AB = AcBits
  import DB = DcBits
  import AC = AcScan
  import DC = DcScan
  import I = ProgressiveImage

  /** One scan read into the image. */
  ghost function DecodePass(x: Tables, dec: Image, p: Pass, input: seq<Byte>): (o: PassOut)
    requires Readable(x) && PassOk(dec, p) && Sized(dec)
    ensures o.Good? ==> SameShape(dec, o.img)
  {
    if p.info.ss == 0 then
      match DB.DecodePass(x, ToDc(p), input, DcSlots(dec, p), p.interval)
      case AllRead(vals, _) => if ValuesFit(p.layout, vals) then Good(StoreMcus(dec, p, p.layout, vals)) else Bad
      case NotRead => Bad
    else
      var c := p.info.comps[0];
      match AB.DecodePass(x, ToBand(p), input, dec[c], p.interval)
      case AllRead(blocks, _) => if BlocksFit(dec[c], blocks) then Good(dec[c := blocks]) else Bad
      case NotRead => Bad
  }

  /** What follows a scan in its input holds no data: it starts with a marker, or is empty. */
  ghost predicate ScanInput(x: Tables, ts: seq<Token>, input: seq<Byte>) {
    && TablesOk(x) && AllSendable(x, ts)
    && exists tail: seq<Byte> :: IsTail(tail) && input == StreamBytes(x, [], ts) + tail
  }

  predicate IsTail(tail: seq<Byte>) {
    Data(tail) == []
  }

  lemma {:induction false} PassSame(x: Tables, dec: Image, p: Pass, ts: seq<Token>, input: seq<Byte>)
    requires PassOk(dec, p) && Sized(dec) && ScanInput(x, ts, input)
    ensures Readable(x)
    ensures var o := I.DecodePass(dec, p, ts); o.Good? ==> DecodePass(x, dec, p, input) == o
  {
    TablesReadable(x);
    hide TablesOk, Readable, AllSendable, Open, DB.DecodePass, AB.DecodePass, DC.DecodePass, AC.DecodePass, StoreMcus, ValuesFit, BlocksFit,
      PassOk, DcSlots, StreamBytes, Data;
    var tail: seq<Byte> :| IsTail(tail) && input == StreamBytes(x, [], ts) + tail;
    var rest := Found(x, [], ts, tail);
    var e := Stream(rest, Marker(tail), AfterMarker(tail));
    if p.info.ss == 0 {
      DcSame(x, dec, p, input, ts, e);
    } else {
      AcSame(x, dec, p, input, ts, e);
    }
  }

  lemma {:induction false} DcSame(x: Tables, dec: Image, p: Pass, input: seq<Byte>, ts: seq<Token>, e: Stream)
    requires Readable(x) && PassOk(dec, p) && Sized(dec) && p.info.ss == 0
    requires var s := Open(input); Leads(x, s.(bits := s.bits[0..]), ts, e)
    ensures var o := DC.DecodePass(ToDc(p), ts, DcSlots(dec, p), p.interval);
      o.Decoded? && o.ts == [] ==> DB.DecodePass(x, ToDc(p), input, DcSlots(dec, p), p.interval) == DB.AllRead(o.mcus, e)
  {
    DB.PassSame(x, ToDc(p), input, ts, DcSlots(dec, p), p.interval, e);
    hide Readable, Open, DB.DecodePass, DC.DecodePass;
  }

  lemma {:induction false} AcSame(x: Tables, dec: Image, p: Pass, input: seq<Byte>, ts: seq<Token>, e: Stream)
    requires Readable(x) && PassOk(dec, p) && Sized(dec) && p.info.ss > 0
    requires var s := Open(input); Leads(x, s.(bits := s.bits[0..]), ts, e)
    ensures var ds := dec[p.info.comps[0]];
      var o := AC.DecodePass(ToBand(p), ts, ds, p.interval);
      o.Decoded? && o.ts == [] ==> AB.DecodePass(x, ToBand(p), input, ds, p.interval) == AB.AllRead(o.blocks, e)
  {
    AB.PassSame(x, ToBand(p), input, ts, dec[p.info.comps[0]], p.interval, e);
    hide Readable, Open, AB.DecodePass, AC.DecodePass;
  }

  ghost predicate AllReadable(xs: seq<Tables>) {
    forall i :: 0 <= i < |xs| ==> Readable(xs[i])
  }

  /** Reading the first n scans of a file, each with the tables in force. */
  ghost function DecodeFirst(dec: Image, ps: seq<Pass>, xs: seq<Tables>, inputs: seq<seq<Byte>>, n: nat): (o: PassOut)
    requires PassesOk(dec, ps) && Sized(dec) && |xs| == |inputs| == |ps| && n <= |ps| && AllReadable(xs)
    ensures o.Good? ==> SameShape(dec, o.img)
  {
    if n == 0 then Good(dec)
    else match DecodeFirst(dec, ps, xs, inputs, n - 1)
      case Bad => Bad
      case Good(d) =>
        PassOkShape(dec, d, ps[n - 1]);
        DecodePass(xs[n - 1], d, ps[n - 1], inputs[n - 1])
  }

  /** The inputs are what the encoder wrote for the scans of img, each with what follows it. */
  ghost predicate Written(img: Image, ps: seq<Pass>, xs: seq<Tables>, inputs: seq<seq<Byte>>)
    requires PassesOk(img, ps) && Sized(img)
  {
    |xs| == |inputs| == |ps| && forall i :: 0 <= i < |ps| ==> ScanInput(xs[i], EncodeAll(img, ps)[i], inputs[i])
  }

  /** Main result for progressive images: for every script the compressor accepts, reading the
      bytes of its scans shows each coefficient down to the last bit position sent for it. */
  lemma {:induction false} ScriptDecodesFromBytes(img: Image, ps: seq<Pass>, xs: seq<Tables>, inputs: seq<seq<Byte>>, n: nat)
    requires ImageOk(img) && Sized(img) && PassesOk(img, ps) && n <= |ps|
    requires ValidScript(Infos(ps), |img|) && IsProgressive(Infos(ps)) && Written(img, ps, xs, inputs)
    ensures PassesOk(I.Blank(img), ps) && AllReadable(xs)
    ensures var o := DecodeFirst(I.Blank(img), ps, xs, inputs, n); o.Good? && Shows(img, o.img, Infos(ps), n)
  {
    WrittenReadable(img, ps, xs, inputs);
    hide ValidScript, IsProgressive, Infos, I.Blank, ImageOk, Sized, PassOk, Shows, EncodeAll, I.DecodeFirst, Written, DecodeFirst, Readable;
    I.ScriptDecodes(img, ps, n);
    FilesSame(img, ps, xs, inputs, n);
  }

  lemma {:induction false} WrittenReadable(img: Image, ps: seq<Pass>, xs: seq<Tables>, inputs: seq<seq<Byte>>)
    requires PassesOk(img, ps) && Sized(img) && Written(img, ps, xs, inputs)
    ensures AllReadable(xs)
  {
    forall i | 0 <= i < |xs| ensures Readable(xs[i]) {
      assert ScanInput(xs[i], EncodeAll(img, ps)[i], inputs[i]);
      TablesReadable(xs[i]);
      hide TablesOk, Readable, EncodeAll;
    }
  }

  lemma {:induction false} FilesSame(img: Image, ps: seq<Pass>, xs: seq<Tables>, inputs: seq<seq<Byte>>, n: nat)
    requires ImageOk(img) && Sized(img) && PassesOk(img, ps) && n <= |ps|
    requires ValidScript(Infos(ps), |img|) && IsProgressive(Infos(ps)) && Written(img, ps, xs, inputs) && AllReadable(xs)
    ensures PassesOk(I.Blank(img), ps)
    ensures DecodeFirst(I.Blank(img), ps, xs, inputs, n) == I.DecodeFirst(I.Blank(img), ps, EncodeAll(img, ps), n)
  {
    hide ValidScript, IsProgressive, Infos, I.Blank, ImageOk, Sized, PassOk, Shows, EncodeAll, DecodePass, I.DecodePass, Readable, ScanInput;
    I.ScriptDecodes(img, ps, n);
    if n > 0 {
      FilesSame(img, ps, xs, inputs, n - 1);
      I.ScriptDecodes(img, ps, n - 1);
      var d := I.DecodeFirst(I.Blank(img), ps, EncodeAll(img, ps), n - 1).img;
      PassOkShape(I.Blank(img), d, ps[n - 1]);
      assert ScanInput(xs[n - 1], EncodeAll(img, ps)[n - 1], inputs[n - 1]);
      PassSame(xs[n - 1], d, ps[n - 1], EncodeAll(img, ps)[n - 1], inputs[n - 1]);
    }
  }
}
