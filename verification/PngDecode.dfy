/** From the image data spans of a PNG file to the screen. */
module PngDecode {
  import opened Bits
  import opened Wrappers
  import opened PngBits
  import opened PngDeflate
  import opened PngEncode
  import opened PngFilter
  import opened PngScale
  import opened PngSink
  import opened PngInflate

  /** Section 2.2 of RFC 1950: the deflate method, the check bits, and no preset dictionary. */
  predicate ZlibHeader(cmf: u8, flg: u8) {
    cmf % 16 == 8 && (cmf * 0x100 + flg) % 31 == 0 && flg / 32 % 2 == 0
  }

  lemma HeaderTests(cmf: u8, flg: u8)
    ensures And(cmf, 0x0F) == cmf % 16
    ensures Or(flg, cmf as int * 0x100) == cmf * 0x100 + flg
    ensures And(flg, 0x20) != 0 <==> flg / 32 % 2 == 1
  {
    Powers();
    AndMask(cmf, 4);
    OrDisjoint(flg, cmf, 8);
    AndBit(flg, 5);
  }

  /** Masking with one bit tests that bit. */
  lemma {:induction false} AndBit(x: nat, n: nat)
    ensures And(x, Pow2(n)) == x / Pow2(n) % 2 * Pow2(n)
  {
    var p := Pow2(n);
    if n == 0 {
      assert And(x, 1) == if x == 0 then 0 else (x % 2) * 1 + 2 * And(x / 2, 0);
    } else {
      AndBit(x / 2, n - 1);
      HalvedBit(x, Pow2(n - 1));
      if x != 0 {
        assert And(x, p) == (x % 2) * (p % 2) + 2 * And(x / 2, p / 2);
      } else {
        DivModUnique(0, p, 0, 0);
      }
    }
  }

  lemma HalvedBit(x: nat, p: nat)
    requires p > 0
    ensures x / (2 * p) == x / 2 / p
    ensures x / (2 * p) % 2 * (2 * p) == 2 * (x / 2 / p % 2 * p)
  {
    var h, b := x / 2, x % 2;
    var q, r := h / p, h % p;
    assert h == p * q + r;
    assert x == (2 * p) * q + (2 * r + b);
    DivModUnique(x, 2 * p, q, 2 * r + b);
  }

  /** The inflated bytes of the image data, if its header and blocks are right. */
  ghost function Inflated(data: seq<u8>): Result<seq<u8>> {
    if |data| < 2 || !ZlibHeader(data[0], data[1]) then Err else
    var r := Inflate(BitsOf(data), 16, []);
    if r.Err? then Err else Ok(r.value.out)
  }

  /** The image data is that of the picture: it inflates to at least all rows, each with a known filter. */
  ghost predicate Decodable(data: seq<u8>, p: Picture) {
    var r := Inflated(data);
    r.Ok? && Accepts(p, r.value) && Start(p.stride, p.height) <= |r.value|
  }

  /** Decoding succeeds exactly on decodable image data; then the picture is on the screen, each of its pixels
      drawn once with the sample it shows, and nothing else is. */
  method Draw(png: seq<u8>, spans: seq<(nat, nat)>, p: Picture) returns (sink: Sink, ok: bool)
    requires SpansFit(png, spans) && ValidPicture(p)
    ensures ok <==> Decodable(Gather(png, spans), p)
    ensures fresh(sink) && sink.pic == p && sink.screen.Length == MODE13_PIXELS
    ensures ok ==> sink.drawn == p.dw * p.dh
    ensures ok ==> forall idx :: 0 <= idx < MODE13_PIXELS ==>
                     sink.screen[idx] == FinalColour(p, Inflated(Gather(png, spans)).value, idx)
  {
    hide Inflate, Accepts, BitsOf, Gather, FinalColour, ZlibHeader, Sink.Valid, BitReader.Valid, ValidPicture;
    sink := new Sink(p);
    var total := CountBytes(png, spans);
    var br := new BitReader(png, spans, total);
    ok := ReadHeader(br);
    if !ok {
      return;
    }
    ok := InflateDeflate(br, sink);
    if !ok {
      return;
    }
    sink.RowsArrived();
    if sink.row != p.height {
      ok := false;
      return;
    }
    sink.Complete();
  }

  method ReadHeader(br: BitReader) returns (ok: bool)
    requires br.Valid() && br.At() == 0
    modifies br
    ensures ok <==> |br.Data()| >= 2 && ZlibHeader(br.Data()[0], br.Data()[1])
    ensures ok ==> br.Valid() && br.At() == 16
  {
    hide BitsOf, Gather, ZlibHeader, And, Or;
    NoBuffer(br);
    var cmf := br.NextByte();
    if cmf.Err? {
      return false;
    }
    var flg := br.NextByte();
    if flg.Err? {
      return false;
    }
    HeaderOk(cmf.value, flg.value);
    if And(cmf.value, 0x0F) != 8 {
      return false;
    }
    if Or(flg.value, cmf.value as int * 0x100) % 31 != 0 || And(flg.value, 0x20) != 0 {
      return false;
    }
    NumberEmpty(br.Source(), 16);
    return true;
  }

  /** At the start nothing is buffered. */
  lemma NoBuffer(br: BitReader)
    requires br.Valid() && br.At() == 0
    ensures br.pos == 0 && br.bitcnt == 0
  {
  }

  lemma HeaderOk(cmf: u8, flg: u8)
    ensures ZlibHeader(cmf, flg) <==>
            And(cmf, 0x0F) == 8 && Or(flg, cmf as int * 0x100) % 31 == 0 && And(flg, 0x20) == 0
  {
    HeaderTests(cmf, flg);
  }

  /** The total the chunk walk keeps for the spans. */
  method CountBytes(png: seq<u8>, spans: seq<(nat, nat)>) returns (total: nat)
    requires SpansFit(png, spans)
    ensures total == |Gather(png, spans)|
  {
    total := 0;
    for i := 0 to |spans|
      invariant total + |Gather(png, spans[i..])| == |Gather(png, spans)|
    {
      GatherSkips(png, spans[i..], 0);
      assert spans[i..][1..] == spans[i + 1..];
      total := total + spans[i].1;
    }
  }

  // An encoded image is shown.

  /** The filtered rows of an image, one after the other. */
  function Scanlines(rows: seq<seq<u8>>, types: seq<u8>, stride: nat, bpp: nat, n: nat): (r: seq<u8>)
    requires n <= |rows| == |types| && stride > 0 && bpp > 0
    requires forall i :: 0 <= i < |rows| ==> |rows[i]| == stride - 1
    ensures |r| == Start(stride, n)
  {
    if n == 0 then [] else
    var above := if n == 1 then Zeros(stride - 1) else rows[n - 2];
    Scanlines(rows, types, stride, bpp, n - 1) + [types[n - 1]] + Filtered(types[n - 1], rows[n - 1], above, bpp)
  }

  lemma {:induction false} ScanlinesPrefix(rows: seq<seq<u8>>, types: seq<u8>, stride: nat, bpp: nat, n: nat, m: nat)
    requires n <= m <= |rows| == |types| && stride > 0 && bpp > 0
    requires forall i :: 0 <= i < |rows| ==> |rows[i]| == stride - 1
    ensures Scanlines(rows, types, stride, bpp, n) <= Scanlines(rows, types, stride, bpp, m)
  {
    if n < m {
      ScanlinesPrefix(rows, types, stride, bpp, n, m - 1);
    }
  }

  /** Unfiltering the scanlines gives the rows back. */
  lemma {:induction false} ScanlinesDecode(rows: seq<seq<u8>>, types: seq<u8>, stride: nat, bpp: nat, fed: seq<u8>,
                                           r: nat)
    requires r < |rows| == |types| && stride > 0 && bpp > 0
    requires forall i :: 0 <= i < |rows| ==> |rows[i]| == stride - 1
    requires Scanlines(rows, types, stride, bpp, |rows|) <= fed
    ensures Start(stride, r) + stride <= |fed|
    ensures Image(fed, stride, bpp, r) == [types[r]] + rows[r]
  {
    hide Scanlines, Start, Filtered, Unfiltered, Prior, Zeros;
    StartNext(stride, r);
    var above := if r == 0 then Zeros(stride - 1) else rows[r - 1];
    ScanlineAt(rows, types, stride, bpp, fed, r);
    var line := fed[Start(stride, r)..Start(stride, r) + stride];
    UnfilterFiltered(types[r], rows[r], above, bpp, stride - 1);
    FirstPrior(above, stride);
    if r > 0 {
      ScanlinesDecode(rows, types, stride, bpp, fed, r - 1);
    }
    ImageOfLine(fed, stride, bpp, r, line, above);
    assert line[1..] == Filtered(types[r], rows[r], above, bpp);
  }

  lemma FirstPrior(above: seq<u8>, stride: nat)
    requires stride > 0
    ensures Prior(true, Zeros(stride - 1)) == Zeros(stride - 1) && Prior(false, above) == above
  {
  }

  lemma ScanlinesStep(rows: seq<seq<u8>>, types: seq<u8>, stride: nat, bpp: nat, r: nat)
    requires r < |rows| == |types| && stride > 0 && bpp > 0
    requires forall i :: 0 <= i < |rows| ==> |rows[i]| == stride - 1
    ensures var above := if r == 0 then Zeros(stride - 1) else rows[r - 1];
            Scanlines(rows, types, stride, bpp, r + 1)
            == Scanlines(rows, types, stride, bpp, r) + ([types[r]] + Filtered(types[r], rows[r], above, bpp))
  {
    hide Filtered, Zeros, Start;
  }

  lemma SliceAfter(s: seq<u8>, a: seq<u8>, b: seq<u8>)
    requires a + b <= s
    ensures |a| + |b| <= |s| && s[|a|..|a| + |b|] == b
  {
    assert s[..|a + b|] == a + b;
    assert s[|a|..|a| + |b|] == s[..|a + b|][|a|..];
  }

  lemma ScanlineAt(rows: seq<seq<u8>>, types: seq<u8>, stride: nat, bpp: nat, fed: seq<u8>, r: nat)
    requires r < |rows| == |types| && stride > 0 && bpp > 0
    requires forall i :: 0 <= i < |rows| ==> |rows[i]| == stride - 1
    requires Scanlines(rows, types, stride, bpp, |rows|) <= fed
    ensures var above := if r == 0 then Zeros(stride - 1) else rows[r - 1];
            Start(stride, r) + stride <= |fed|
            && fed[Start(stride, r)..Start(stride, r) + stride]
            == [types[r]] + Filtered(types[r], rows[r], above, bpp)
  {
    hide Filtered, Zeros, Scanlines, Start;
    ScanlinesPrefix(rows, types, stride, bpp, r + 1, |rows|);
    var above := if r == 0 then Zeros(stride - 1) else rows[r - 1];
    var line := [types[r]] + Filtered(types[r], rows[r], above, bpp);
    ScanlinesStep(rows, types, stride, bpp, r);
    StartNext(stride, r);
    SliceAfter(fed, Scanlines(rows, types, stride, bpp, r), line);
  }

  /** Rows of the right length, each with a known filter type. */
  predicate ImageRows(p: Picture, rows: seq<seq<u8>>, types: seq<u8>) {
    && |rows| == |types| == p.height
    && (forall i :: 0 <= i < |rows| ==> |rows[i]| == p.stride - 1)
    && forall i :: 0 <= i < |types| ==> types[i] <= 4
  }

  /** All filtered rows of the picture. */
  function AllScanlines(p: Picture, rows: seq<seq<u8>>, types: seq<u8>): seq<u8>
    requires ValidPicture(p) && ImageRows(p, rows, types)
  {
    Scanlines(rows, types, p.stride, p.bpp, p.height)
  }

  /** The colour of the image pixel that scaling assigns to a place on the screen. */
  function ImageColour(p: Picture, rows: seq<seq<u8>>, types: seq<u8>, idx: nat): u8
    requires ValidPicture(p) && ImageRows(p, rows, types) && InPicture(p, idx)
  {
    hide SourceRow, SourceCol, Sample;
    var dx, dy := idx % MODE13_W - p.ox, idx / MODE13_W - p.oy;
    RowInside(p, dy);
    SampleFits(p, dx);
    Sample(p.colorType, p.bpp, [types[SourceRow(p, dy)]] + rows[SourceRow(p, dy)], SourceCol(p, dx))
  }

  /** The data is the image, filtered and deflated in some way. */
  ghost predicate Encodes(p: Picture, rows: seq<seq<u8>>, types: seq<u8>, cs: seq<Chunk>, data: seq<u8>)
    requires ValidPicture(p)
  {
    && ImageRows(p, rows, types)
    && |data| >= 2 && ZlibHeader(data[0], data[1])
    && ValidStream(cs, 16) && Stands(BitsOf(data), 16, StreamBits(cs, 16))
    && StreamOutput(cs, 16, []) == Ok(AllScanlines(p, rows, types))
  }

  /** An image whose rows are filtered and deflated in any way is decodable, and each pixel of the picture shows
      the pixel of the image that scaling assigns to it. */
  lemma EncodedImageShown(p: Picture, rows: seq<seq<u8>>, types: seq<u8>, cs: seq<Chunk>, data: seq<u8>, idx: nat)
    requires ValidPicture(p) && Encodes(p, rows, types, cs, data) && InPicture(p, idx)
    ensures Decodable(data, p)
    ensures FinalColour(p, Inflated(data).value, idx) == ImageColour(p, rows, types, idx)
  {
    hide StreamBits, StreamOutput, ValidStream, Inflate, BitsOf, Stands, Scanlines, Image, Start, ZlibHeader,
         SourceRow, SourceCol, ValidPicture, Sample;
    StrideNonZero(p);
    InflateDecodes(cs, BitsOf(data), 16, []);
    var out := AllScanlines(p, rows, types);
    ScanlinesAccepted(p, rows, types);
    var dx, dy := idx % MODE13_W - p.ox, idx / MODE13_W - p.oy;
    RowInside(p, dy);
    SampleFits(p, dx);
    ScanlinesDecode(rows, types, p.stride, p.bpp, out, SourceRow(p, dy));
  }

  lemma ScanlinesAccepted(p: Picture, rows: seq<seq<u8>>, types: seq<u8>)
    requires p.stride > 0 && p.bpp > 0 && |rows| == |types| == p.height
    requires forall i :: 0 <= i < |rows| ==> |rows[i]| == p.stride - 1
    requires forall i :: 0 <= i < |types| ==> types[i] <= 4
    ensures Accepts(p, Scanlines(rows, types, p.stride, p.bpp, p.height))
  {
    hide Scanlines, Start, Filtered;
    var out := Scanlines(rows, types, p.stride, p.bpp, p.height);
    forall r | 0 <= r < p.height
      ensures GoodRow(out, p.stride, r)
    {
      ScanlineAt(rows, types, p.stride, p.bpp, out, r);
      assert out[Start(p.stride, r)] == out[Start(p.stride, r)..Start(p.stride, r) + p.stride][0];
    }
  }
}
