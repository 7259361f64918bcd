/** A PNG file from its signature to the screen: the chunk walk, what is refused, and files that are shown. */
module PngChunks {
  import opened Bits
  import opened Wrappers
  import opened PngBits
  import opened PngEncode
  import opened PngScale
  import opened PngSink
  import opened PngDecode

  const MAX_SPANS := 32

  function Signature(): (r: seq<u8>)
    ensures |r| == 8
  {
    [0x89, 0x50, 0x4E, 0x47, 0x0D, 0x0A, 0x1A, 0x0A]
  }

  function Ihdr(): (r: seq<u8>)
    ensures |r| == 4
  {
    [0x49, 0x48, 0x44, 0x52]
  }

  function Plte(): (r: seq<u8>)
    ensures |r| == 4
  {
    [0x50, 0x4C, 0x54, 0x45]
  }

  function Idat(): (r: seq<u8>)
    ensures |r| == 4
  {
    [0x49, 0x44, 0x41, 0x54]
  }

  function Iend(): (r: seq<u8>)
    ensures |r| == 4
  {
    [0x49, 0x45, 0x4E, 0x44]
  }

  /** Four bytes, the first one highest. */
  function Be32(d: seq<u8>, i: nat): u32
    requires i + 4 <= |d|
  {
    FromLe32(d[i + 3], d[i + 2], d[i + 1], d[i])
  }

  function Be32Bytes(x: u32): (r: seq<u8>)
    ensures |r| == 4
  {
    [Le32(x)[3], Le32(x)[2], Le32(x)[1], Le32(x)[0]]
  }

  lemma Be32RoundTrip(d: seq<u8>, i: nat, x: u32)
    requires i + 4 <= |d| && d[i..i + 4] == Be32Bytes(x)
    ensures Be32(d, i) == x
  {
    hide Le32, FromLe32;
    Le32RoundTrip(x);
    assert d[i] == d[i..i + 4][0] && d[i + 1] == d[i..i + 4][1];
    assert d[i + 2] == d[i..i + 4][2] && d[i + 3] == d[i..i + 4][3];
  }

  // The signature.

  predicate SignatureAt(data: seq<u8>, i: nat) {
    i + 8 <= |data| && data[i..i + 8] == Signature()
  }

  predicate FirstSignature(data: seq<u8>, i: nat) {
    SignatureAt(data, i) && forall j :: 0 <= j < i ==> !SignatureAt(data, j)
  }

  /** The place of the first signature. */
  method FindPng(data: seq<u8>) returns (r: Option<nat>)
    ensures r.Some? ==> FirstSignature(data, r.value)
    ensures r.None? ==> forall j: nat :: !SignatureAt(data, j)
  {
    if |data| < 8 {
      return None;
    }
    var i := 0;
    while i <= |data| - 8
      invariant i <= |data| - 7
      invariant forall j :: 0 <= j < i ==> !SignatureAt(data, j)
    {
      if data[i..i + 8] == Signature() {
        return Some(i);
      }
      i := i + 1;
    }
    return None;
  }

  // The chunk walk.

  datatype ImageHeader = ImageHeader(width: u32, height: u32, depth: u8, colorType: u8, interlace: u8)

  /** What the walk has seen: a header, the palette's number of colours, and where the image data is. */
  datatype Seen = Seen(header: Option<ImageHeader>, colours: nat, spans: seq<(nat, nat)>, total: nat)

  const NOTHING := Seen(None, 0, [], 0)

  /** A chunk whose length is right for the file. */
  predicate ChunkAt(png: seq<u8>, pos: nat) {
    pos + 12 <= |png| && pos + 8 + Be32(png, pos) + 4 <= |png|
  }

  /** What a chunk adds; `None` if it is refused. */
  function Looked(png: seq<u8>, pos: nat, s: Seen): Option<Seen>
    requires ChunkAt(png, pos)
  {
    var len, off := Be32(png, pos), pos + 8;
    var typ, data := png[pos + 4..pos + 8], png[off..off + len];
    if typ == Ihdr() then
      if len != 13 || data[10] != 0 || data[11] != 0 then None
      else Some(s.(header := Some(ImageHeader(Be32(data, 0), Be32(data, 4), data[8], data[9], data[12]))))
    else if typ == Plte() then
      if len == 0 || len % 3 != 0 || len > 768 then None else Some(s.(colours := len / 3))
    else if typ == Idat() then
      if |s.spans| >= MAX_SPANS then None else Some(s.(spans := s.spans + [(off, len)], total := s.total + len))
    else Some(s)
  }

  /** The walk from a position to the end mark or to where no chunk fits any more. */
  function Walk(png: seq<u8>, pos: nat, s: Seen): Option<Seen>
    decreases |png| - pos
  {
    if pos + 12 > |png| then Some(s)
    else if !ChunkAt(png, pos) then None
    else
      var r := Looked(png, pos, s);
      if r.None? then None
      else if png[pos + 4..pos + 8] == Iend() then r
      else Walk(png, pos + 12 + Be32(png, pos), r.value)
  }

  lemma WalkStep(png: seq<u8>, pos: nat, s: Seen)
    ensures Walk(png, pos, s) ==
            if pos + 12 > |png| then Some(s)
            else if !ChunkAt(png, pos) then None
            else
              var r := Looked(png, pos, s);
              if r.None? then None
              else if png[pos + 4..pos + 8] == Iend() then r
              else Walk(png, pos + 12 + Be32(png, pos), r.value)
  {
    hide Looked, ChunkAt;
  }

  /** The data of the image is inside the file, and the total is right. */
  ghost predicate GoodSpans(png: seq<u8>, s: Seen) {
    SpansFit(png, s.spans) && |s.spans| <= 32 && s.total == |Gather(png, s.spans)|
  }

  lemma {:induction false} GatherSnoc(png: seq<u8>, spans: seq<(nat, nat)>, last: (nat, nat))
    requires SpansFit(png, spans) && last.0 + last.1 <= |png|
    ensures SpansFit(png, spans + [last])
    ensures Gather(png, spans + [last]) == Gather(png, spans) + png[last.0..last.0 + last.1]
  {
    if spans == [] {
      assert [last][1..] == [];
      assert spans + [last] == [last];
    } else {
      assert (spans + [last])[1..] == spans[1..] + [last];
      GatherSnoc(png, spans[1..], last);
    }
  }

  lemma LookedGood(png: seq<u8>, pos: nat, s: Seen)
    requires ChunkAt(png, pos) && GoodSpans(png, s)
    ensures Looked(png, pos, s).Some? ==> GoodSpans(png, Looked(png, pos, s).value)
  {
    hide Gather, Be32;
    GatherSnoc(png, s.spans, (pos + 8, Be32(png, pos)));
  }

  lemma {:induction false} WalkGood(png: seq<u8>, pos: nat, s: Seen)
    requires GoodSpans(png, s)
    ensures Walk(png, pos, s).Some? ==> GoodSpans(png, Walk(png, pos, s).value)
    decreases |png| - pos
  {
    hide GoodSpans, Looked, Be32;
    if ChunkAt(png, pos) {
      LookedGood(png, pos, s);
      if Looked(png, pos, s).Some? {
        WalkGood(png, pos + 12 + Be32(png, pos), Looked(png, pos, s).value);
      }
    }
  }

  method WalkChunks(png: seq<u8>) returns (r: Option<Seen>)
    ensures r == Walk(png, 8, NOTHING)
  {
    hide Walk, Be32;
    var pos, seen := 8, NOTHING;
    while pos + 12 <= |png|
      invariant Walk(png, pos, seen) == Walk(png, 8, NOTHING)
      decreases |png| - pos
    {
      WalkStep(png, pos, seen);
      var len := Be32(png, pos);
      if pos + 8 + len + 4 > |png| {
        return None;
      }
      var typ, off := png[pos + 4..pos + 8], pos + 8;
      var data := png[off..off + len];
      if typ == Ihdr() {
        if len != 13 || data[10] != 0 || data[11] != 0 {
          return None;
        }
        seen := seen.(header := Some(ImageHeader(Be32(data, 0), Be32(data, 4), data[8], data[9], data[12])));
      } else if typ == Plte() {
        if len == 0 || len % 3 != 0 || len > 768 {
          return None;
        }
        seen := seen.(colours := len / 3);
      } else if typ == Idat() {
        if |seen.spans| >= MAX_SPANS {
          return None;
        }
        seen := seen.(spans := seen.spans + [(off, len)], total := seen.total + len);
      } else if typ == Iend() {
        return Some(seen);
      }
      pos := off + len + 4;
    }
    WalkStep(png, pos, seen);
    return Some(seen);
  }

  lemma NothingGood(png: seq<u8>)
    ensures GoodSpans(png, NOTHING)
  {
  }

  // What is drawn.

  datatype Plan = Refused | OffScreen | OnScreen(p: Picture)

  /** What the decoder does with a file it has walked, to be drawn at (x, y). */
  function PlanOf(s: Seen, x: int, y: int): Plan {
    if s.header.None? then Refused else
    var h := s.header.value;
    if h.interlace != 0 || h.depth != 8 then Refused
    else if h.width == 0 || h.height == 0 || h.width > PNG_MAX_DIM || h.height > PNG_MAX_DIM then Refused
    else if h.colorType !in {0, 2, 3, 4, 6} || (h.colorType == 3 && s.colours == 0) then Refused
    else
      var stride := RowBytes(h) + 1;
      if stride > MAX_STRIDE || s.spans == [] || s.total < 2 then Refused
      else
        var ox, oy := if x < 0 then 0 else x, if y < 0 then 0 else y;
        if ox >= MODE13_W || oy >= MODE13_H then OffScreen
        else
          var (dw, dh) := DestSize(h.width, h.height, ox, oy);
          OnScreen(Picture(h.width, h.height, BppOf(h.colorType), h.colorType, stride, ox, oy, dw, dh))
  }

  function RowBytes(h: ImageHeader): nat {
    if h.colorType == 2 then 3 * h.width else if h.colorType == 4 then 2 * h.width
    else if h.colorType == 6 then 4 * h.width else h.width
  }

  /** Every picture that is drawn meets the requirements of drawing: a width that is accepted also fits the row
      buffers, and its scaled size fits the screen. */
  lemma PlanDraws(s: Seen, x: int, y: int)
    ensures PlanOf(s, x, y).OnScreen? ==> ValidPicture(PlanOf(s, x, y).p)
    ensures s.header.Some? && s.header.value.width <= PNG_MAX_DIM ==> RowBytes(s.header.value) + 1 <= MAX_STRIDE
  {
    hide DestSize;
    if PlanOf(s, x, y).OnScreen? {
      var h := s.header.value;
      DestSizeFits(h.width, h.height, if x < 0 then 0 else x, if y < 0 then 0 else y);
    }
  }

  /** What is accepted: an 8-bit image that is not interlaced, of a known colour type and at most 4096 pixels each way,
      with a palette if it is indexed, and at least two bytes of image data. The test of the row buffers never adds to
      that. */
  lemma PlanAccepts(s: Seen, x: int, y: int)
    ensures !PlanOf(s, x, y).Refused? <==>
              && s.header.Some?
              && var h := s.header.value;
              && h.interlace == 0 && h.depth == 8 && 1 <= h.width <= 4096 && 1 <= h.height <= 4096
              && h.colorType in {0, 2, 3, 4, 6} && (h.colorType == 3 ==> s.colours > 0)
              && s.spans != [] && s.total >= 2
    ensures PlanOf(s, x, y).OffScreen? <==> !PlanOf(s, x, y).Refused? && (x >= 320 || y >= 200)
  {
    hide DestSize;
  }

  /** What the decoder does with a file from its signature on. */
  function TaskOf(png: seq<u8>, x: int, y: int): Plan {
    var w := Walk(png, 8, NOTHING);
    if w.None? then Refused else PlanOf(w.value, x, y)
  }

  /** The image data of a file, put together. */
  function ImageData(png: seq<u8>): seq<u8>
    requires Walk(png, 8, NOTHING).Some?
  {
    NothingGood(png);
    WalkGood(png, 8, NOTHING);
    Gather(png, Walk(png, 8, NOTHING).value.spans)
  }

  /** The file is drawn, at least partly on the screen, and its image data is right. */
  ghost predicate Displays(png: seq<u8>, x: int, y: int) {
    TaskOf(png, x, y).OnScreen? && Decodable(ImageData(png), TaskOf(png, x, y).p)
  }

  /** The screen a file is drawn on. */
  ghost function ShownColour(png: seq<u8>, x: int, y: int, idx: nat): u8
    requires Displays(png, x, y)
  {
    DecodablePlan(png, x, y);
    FinalColour(TaskOf(png, x, y).p, Inflated(ImageData(png)).value, idx)
  }

  lemma DecodablePlan(png: seq<u8>, x: int, y: int)
    requires Displays(png, x, y)
    ensures var p := TaskOf(png, x, y).p;
            ValidPicture(p) && Inflated(ImageData(png)).Ok?
            && Start(p.stride, p.height) <= |Inflated(ImageData(png)).value|
  {
    hide Walk, Gather, Start, Accepts, Inflated, ValidPicture, PlanOf;
    PlanDraws(Walk(png, 8, NOTHING).value, x, y);
  }

  /** Decoding a file from its signature on. Nothing is drawn for a refused file or a place off the screen;
      otherwise decoding succeeds exactly on right image data, and then the picture is shown. */
  method DecodePng(png: seq<u8>, x: int, y: int) returns (ok: bool, sink: Sink?, colours: nat)
    ensures ok <==> TaskOf(png, x, y).OffScreen? || Displays(png, x, y)
    ensures Displays(png, x, y) ==>
              && sink != null && sink.pic == TaskOf(png, x, y).p && sink.screen.Length == MODE13_PIXELS
              && sink.drawn == sink.pic.dw * sink.pic.dh
              && forall idx :: 0 <= idx < MODE13_PIXELS ==> sink.screen[idx] == ShownColour(png, x, y, idx)
    ensures ok && !Displays(png, x, y) ==> sink == null
  {
    hide Walk, PlanOf, Decodable, FinalColour, Inflated, Gather, ValidPicture;
    ok, sink, colours := false, null, 0;
    var seen := WalkChunks(png);
    if seen.None? {
      return;
    }
    NothingGood(png);
    WalkGood(png, 8, NOTHING);
    PlanDraws(seen.value, x, y);
    var plan := PlanOf(seen.value, x, y);
    if plan.Refused? {
      return;
    }
    colours := if seen.value.header.Some? && seen.value.header.value.colorType == 3 then seen.value.colours else 256;
    if plan.OffScreen? {
      ok := true;
      return;
    }
    sink, ok := Draw(png, seen.value.spans, plan.p);
  }

  /** Decoding a file that may have other bytes in front of it. */
  method DecodeToScreen(data: seq<u8>, x: int, y: int) returns (ok: bool, sink: Sink?, colours: nat)
    ensures (forall i: nat :: !SignatureAt(data, i)) ==> !ok
    ensures forall i: nat :: FirstSignature(data, i) ==>
              (ok <==> TaskOf(data[i..], x, y).OffScreen? || Displays(data[i..], x, y))
    ensures forall i: nat :: FirstSignature(data, i) && Displays(data[i..], x, y) ==>
              && sink != null && sink.pic == TaskOf(data[i..], x, y).p && sink.screen.Length == MODE13_PIXELS
              && sink.drawn == sink.pic.dw * sink.pic.dh
              && forall idx :: 0 <= idx < MODE13_PIXELS ==> sink.screen[idx] == ShownColour(data[i..], x, y, idx)
  {
    hide TaskOf, Displays, ShownColour;
    var at := FindPng(data);
    if at.None? {
      return false, null, 0;
    }
    ok, sink, colours := DecodePng(data[at.value..], x, y);
  }

  // Files.

  /** A chunk of a file. Its check value is not looked at. */
  datatype FileChunk = FileChunk(typ: seq<u8>, data: seq<u8>, crc: seq<u8>)

  predicate ValidFileChunk(c: FileChunk) {
    |c.typ| == 4 && |c.crc| == 4 && |c.data| < 0x1_0000_0000
  }

  function ChunkBytes(c: FileChunk): (r: seq<u8>)
    requires ValidFileChunk(c)
    ensures |r| == 12 + |c.data|
  {
    Be32Bytes(|c.data|) + (c.typ + (c.data + c.crc))
  }

  function ChunksBytes(cs: seq<FileChunk>): seq<u8>
    requires forall i :: 0 <= i < |cs| ==> ValidFileChunk(cs[i])
  {
    if cs == [] then [] else ChunkBytes(cs[0]) + ChunksBytes(cs[1..])
  }

  function HeaderBytes(width: u32, height: u32, colorType: u8): (r: seq<u8>)
    ensures |r| == 13
  {
    Be32Bytes(width) + (Be32Bytes(height) + [8, colorType, 0, 0, 0])
  }

  /** A file: the header chunk, others, and the end mark, with anything behind it. */
  datatype File = File(width: u32, height: u32, colorType: u8, headCrc: seq<u8>, body: seq<FileChunk>,
                       endChunk: FileChunk, rest: seq<u8>)

  /** What may stand between the header and the end mark: palettes, image data, and chunks of unknown types. */
  predicate BodyChunk(c: FileChunk) {
    ValidFileChunk(c) && c.typ != Ihdr() && c.typ != Iend()
    && (c.typ == Plte() ==> 0 < |c.data| <= 768 && |c.data| % 3 == 0)
  }

  predicate ValidBody(cs: seq<FileChunk>) {
    forall i :: 0 <= i < |cs| ==> BodyChunk(cs[i]) && ValidFileChunk(cs[i])
  }

  predicate ValidFile(f: File) {
    && 1 <= f.width <= 4096 && 1 <= f.height <= 4096 && f.colorType in {0, 2, 3, 4, 6}
    && |f.headCrc| == 4 && ValidFileChunk(f.endChunk) && f.endChunk.typ == Iend()
    && ValidBody(f.body)
    && (f.colorType == 3 ==> HasPalette(f.body))
    && 1 <= DataChunks(f.body) <= 32 && |DataOf(f.body)| >= 2
  }

  predicate HasPalette(cs: seq<FileChunk>) {
    cs != [] && (cs[0].typ == Plte() || HasPalette(cs[1..]))
  }

  function DataChunks(cs: seq<FileChunk>): nat {
    if cs == [] then 0 else (if cs[0].typ == Idat() then 1 else 0) + DataChunks(cs[1..])
  }

  /** The image data of a list of chunks. */
  function DataOf(cs: seq<FileChunk>): seq<u8> {
    if cs == [] then [] else (if cs[0].typ == Idat() then cs[0].data else []) + DataOf(cs[1..])
  }

  function HeadChunk(f: File): FileChunk {
    FileChunk(Ihdr(), HeaderBytes(f.width, f.height, f.colorType), f.headCrc)
  }

  function FileBytes(f: File): seq<u8>
    requires ValidFile(f)
  {
    Signature() + (ChunkBytes(HeadChunk(f)) + (ChunksBytes(f.body) + (ChunkBytes(f.endChunk) + f.rest)))
  }

  /** Bytes of a chunk at a position are read as this chunk. */
  lemma ChunkRead(png: seq<u8>, pos: nat, c: FileChunk, rest: seq<u8>)
    requires ValidFileChunk(c) && pos <= |png| && png[pos..] == ChunkBytes(c) + rest
    ensures ChunkAt(png, pos) && Be32(png, pos) == |c.data|
    ensures png[pos + 4..pos + 8] == c.typ && png[pos + 8..pos + 8 + |c.data|] == c.data
    ensures pos + 12 + |c.data| <= |png| && png[pos + 12 + |c.data|..] == rest
  {
    hide Be32, Be32Bytes;
    var d, n := png[pos..], |c.data|;
    var b := Be32Bytes(n);
    assert d == b + (c.typ + (c.data + (c.crc + rest)));
    assert png[pos..pos + 4] == d[..4] == b;
    Be32RoundTrip(png, pos, n);
    assert png[pos + 4..pos + 8] == d[4..8] == c.typ;
    assert png[pos + 8..pos + 8 + n] == d[8..8 + n] == c.data;
    assert png[pos + 12 + n..] == d[12 + n..] == rest;
  }

  /** One chunk of the body. */
  lemma BodyStep(png: seq<u8>, pos: nat, c: FileChunk, rest: seq<u8>, s: Seen) returns (s1: Seen)
    requires BodyChunk(c) && ValidFileChunk(c) && pos <= |png| && png[pos..] == ChunkBytes(c) + rest
    requires GoodSpans(png, s) && (c.typ == Idat() ==> |s.spans| < MAX_SPANS)
    ensures Walk(png, pos, s) == Walk(png, pos + 12 + |c.data|, s1) && GoodSpans(png, s1) && s1.header == s.header
    ensures Gather(png, s1.spans) == Gather(png, s.spans) + (if c.typ == Idat() then c.data else [])
    ensures |s1.spans| == |s.spans| + (if c.typ == Idat() then 1 else 0)
    ensures s.colours > 0 || c.typ == Plte() ==> s1.colours > 0
  {
    hide Walk, Be32, ChunkBytes, Gather, ChunkAt, Looked;
    WalkStep(png, pos, s);
    ChunkRead(png, pos, c, rest);
    BodyLooked(png, pos, c, s);
    s1 := Looked(png, pos, s).value;
  }

  lemma EndStep(png: seq<u8>, pos: nat, c: FileChunk, rest: seq<u8>, s: Seen)
    requires ValidFileChunk(c) && c.typ == Iend() && pos <= |png| && png[pos..] == ChunkBytes(c) + rest
    ensures Walk(png, pos, s) == Some(s)
  {
    hide Walk, Be32, ChunkBytes, ChunkAt;
    WalkStep(png, pos, s);
    ChunkRead(png, pos, c, rest);
  }

  /** The walk over the body of a file and its end mark. */
  lemma {:induction false} BodyRead(png: seq<u8>, pos: nat, body: seq<FileChunk>, last: FileChunk, rest: seq<u8>, s: Seen)
    requires ValidBody(body) && ValidFileChunk(last) && last.typ == Iend()
    requires pos <= |png| && png[pos..] == ChunksBytes(body) + (ChunkBytes(last) + rest)
    requires GoodSpans(png, s) && |s.spans| + DataChunks(body) <= MAX_SPANS
    ensures var w := Walk(png, pos, s);
            && w.Some? && w.value.header == s.header && GoodSpans(png, w.value)
            && Gather(png, w.value.spans) == Gather(png, s.spans) + DataOf(body)
            && |w.value.spans| == |s.spans| + DataChunks(body)
            && (s.colours > 0 || HasPalette(body) ==> w.value.colours > 0)
    decreases |body|
  {
    hide Walk, Be32, ChunkBytes, Gather, ChunkAt, BodyChunk, ValidFileChunk;
    if body == [] {
      assert png[pos..] == ChunkBytes(last) + rest;
      EndStep(png, pos, last, rest, s);
    } else {
      var c, tail := body[0], ChunksBytes(body[1..]) + (ChunkBytes(last) + rest);
      assert png[pos..] == ChunkBytes(c) + tail;
      var s1 := BodyStep(png, pos, c, tail, s);
      ChunkRead(png, pos, c, tail);
      BodyRead(png, pos + 12 + |c.data|, body[1..], last, rest, s1);
      GatherMore(Gather(png, s.spans), if c.typ == Idat() then c.data else [], DataOf(body[1..]));
    }
  }

  lemma GatherMore(a: seq<u8>, b: seq<u8>, c: seq<u8>)
    ensures (a + b) + c == a + (b + c)
  {
  }

  lemma BodyLooked(png: seq<u8>, pos: nat, c: FileChunk, s: Seen)
    requires BodyChunk(c) && ChunkAt(png, pos) && Be32(png, pos) == |c.data| && png[pos + 4..pos + 8] == c.typ
    requires png[pos + 8..pos + 8 + |c.data|] == c.data && GoodSpans(png, s)
    requires c.typ == Idat() ==> |s.spans| < MAX_SPANS
    ensures var r := Looked(png, pos, s);
            && r.Some? && r.value.header == s.header && GoodSpans(png, r.value)
            && Gather(png, r.value.spans) == Gather(png, s.spans) + (if c.typ == Idat() then c.data else [])
            && |r.value.spans| == |s.spans| + (if c.typ == Idat() then 1 else 0)
            && (s.colours > 0 || c.typ == Plte() ==> r.value.colours > 0)
  {
    hide Be32, Gather;
    LookedGood(png, pos, s);
    GatherSnoc(png, s.spans, (pos + 8, |c.data|));
  }

  /** A valid file is walked to its end, and what is seen is its header and its image data. */
  lemma FileRead(f: File)
    requires ValidFile(f)
    ensures var w := Walk(FileBytes(f), 8, NOTHING);
            && w.Some? && w.value.header == Some(ImageHeader(f.width, f.height, 8, f.colorType, 0))
            && SpansFit(FileBytes(f), w.value.spans) && Gather(FileBytes(f), w.value.spans) == DataOf(f.body)
            && w.value.spans != [] && w.value.total >= 2 && (f.colorType == 3 ==> w.value.colours > 0)
  {
    hide Walk, Be32, ChunkBytes, ChunksBytes, DataOf, DataChunks, HeaderBytes, Gather;
    var png, head := FileBytes(f), HeadChunk(f);
    var tail := ChunksBytes(f.body) + (ChunkBytes(f.endChunk) + f.rest);
    assert png[8..] == ChunkBytes(head) + tail;
    ChunkRead(png, 8, head, tail);
    WalkStep(png, 8, NOTHING);
    HeaderRead(f.width, f.height, f.colorType);
    var s := NOTHING.(header := Some(ImageHeader(f.width, f.height, 8, f.colorType, 0)));
    GatherNone(png);
    BodyRead(png, 33, f.body, f.endChunk, f.rest, s);
    assert [] + DataOf(f.body) == DataOf(f.body);
  }

  lemma GatherNone(png: seq<u8>)
    ensures Gather(png, []) == []
  {
  }

  lemma HeaderRead(width: u32, height: u32, colorType: u8)
    ensures var d := HeaderBytes(width, height, colorType);
            && Be32(d, 0) == width && Be32(d, 4) == height
            && d[8] == 8 && d[9] == colorType && d[10] == 0 && d[11] == 0 && d[12] == 0
  {
    hide Be32, Be32Bytes;
    var d := HeaderBytes(width, height, colorType);
    assert d[0..4] == Be32Bytes(width) && d[4..8] == Be32Bytes(height);
    Be32RoundTrip(d, 0, width);
    Be32RoundTrip(d, 4, height);
  }

  /** The picture a file asks for. */
  function FilePicture(f: File, x: int, y: int): (p: Picture)
    requires ValidFile(f) && x < MODE13_W && y < MODE13_H
    ensures ValidPicture(p) && p.width == f.width && p.height == f.height && p.colorType == f.colorType
  {
    hide DestSize;
    var ox, oy := if x < 0 then 0 else x, if y < 0 then 0 else y;
    DestSizeFits(f.width, f.height, ox, oy);
    var (dw, dh) := DestSize(f.width, f.height, ox, oy);
    var bpp := BppOf(f.colorType);
    Picture(f.width, f.height, bpp, f.colorType, f.width * bpp + 1, ox, oy, dw, dh)
  }

  /** The whole way: a valid file whose image data is an image, filtered and deflated in any way, is drawn, and every
      pixel drawn has the colour of the image pixel that scaling assigns to it. */
  lemma FileShown(f: File, x: int, y: int, rows: seq<seq<u8>>, types: seq<u8>, cs: seq<Chunk>, idx: nat)
    requires ValidFile(f) && x < MODE13_W && y < MODE13_H
    requires Encodes(FilePicture(f, x, y), rows, types, cs, DataOf(f.body)) && InPicture(FilePicture(f, x, y), idx)
    ensures TaskOf(FileBytes(f), x, y) == OnScreen(FilePicture(f, x, y)) && Displays(FileBytes(f), x, y)
    ensures ShownColour(FileBytes(f), x, y, idx) == ImageColour(FilePicture(f, x, y), rows, types, idx)
  {
    hide Walk, FileBytes, Gather, DestSize, Encodes, Decodable, FinalColour, ImageColour, Inflated, InPicture;
    FileRead(f);
    EncodedImageShown(FilePicture(f, x, y), rows, types, cs, DataOf(f.body), idx);
  }
}
