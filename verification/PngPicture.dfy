/** What a viewer sees of a PNG file: the place of every pixel of the image on the screen. */
module PngPicture {
  import opened Bits
  import opened PngBits
  import opened PngEncode
  import opened PngScale
  import opened PngSink
  import opened PngDecode
  import opened PngChunks
  import C = PngColours

  /** The pixels of a file's image, row by row. */
  predicate IsImage(f: File, pixels: seq<seq<C.Pixel>>) {
    && |pixels| == f.height
    && forall j :: 0 <= j < |pixels| ==> |pixels[j]| == f.width && C.OfType(pixels[j], f.colorType)
  }

  function PixelRows(pixels: seq<seq<C.Pixel>>): (r: seq<seq<u8>>)
    ensures |r| == |pixels| && forall j :: 0 <= j < |r| ==> r[j] == C.RowBytes(pixels[j])
  {
    seq(|pixels|, j requires 0 <= j < |pixels| => C.RowBytes(pixels[j]))
  }

  /** Place s among n is where place d among m is, rounded down. */
  predicate SamePlace(s: nat, n: nat, d: nat, m: nat) {
    s < n && s * m <= d * n < s * m + m
  }

  /** A valid file with an image, filtered and deflated in any way, shows at column i and row j of its place on the
      screen the pixel at the same fraction of the image's width and height, to within one step in each channel. */
  lemma PictureShown(f: File, x: int, y: int, pixels: seq<seq<C.Pixel>>, types: seq<u8>, cs: seq<Chunk>, i: nat, j: nat)
    returns (sx: nat, sy: nat)
    requires ValidFile(f) && x < 320 && y < 200 && IsImage(f, pixels)
    requires Encodes(FilePicture(f, x, y), PixelRows(pixels), types, cs, DataOf(f.body))
    requires i < FilePicture(f, x, y).dw && j < FilePicture(f, x, y).dh
    ensures SamePlace(sx, f.width, i, FilePicture(f, x, y).dw) && SamePlace(sy, f.height, j, FilePicture(f, x, y).dh)
    ensures |pixels| == f.height && |pixels[sy]| == f.width && Displays(FileBytes(f), x, y)
    ensures var left, top := if x < 0 then 0 else x, if y < 0 then 0 else y;
            C.PixelShown(pixels[sy][sx], ShownColour(FileBytes(f), x, y, 320 * (top + j) + left + i))
  {
    hide ValidFile, FileBytes, Encodes, Displays, ShownColour, C.PixelShown, ImageColour, DataOf, FilePicture, C.OfType,
         ValidPicture;
    var p := FilePicture(f, x, y);
    PictureCorner(f, x, y);
    var idx := 320 * (p.oy + j) + p.ox + i;
    PictureSide(p, i, j);
    DivModUnique(idx, 320, p.oy + j, p.ox + i);
    RowsOfImage(f, x, y, pixels, types, cs);
    FileShown(f, x, y, PixelRows(pixels), types, cs, idx);
    sx, sy := PixelPlace(p, PixelRows(pixels), types, pixels, i, j, idx);
  }

  lemma PictureCorner(f: File, x: int, y: int)
    requires ValidFile(f) && x < 320 && y < 200
    ensures var p := FilePicture(f, x, y); p.ox == (if x < 0 then 0 else x) && p.oy == if y < 0 then 0 else y
  {
    hide ValidFile, DestSize;
  }

  lemma PictureSide(p: Picture, i: nat, j: nat)
    requires ValidPicture(p) && i < p.dw && j < p.dh
    ensures p.ox + i < 320 && p.oy + j < 200
  {
  }

  lemma RowsOfImage(f: File, x: int, y: int, pixels: seq<seq<C.Pixel>>, types: seq<u8>, cs: seq<Chunk>)
    requires ValidFile(f) && x < 320 && y < 200
    requires Encodes(FilePicture(f, x, y), PixelRows(pixels), types, cs, DataOf(f.body))
    ensures ImageRows(FilePicture(f, x, y), PixelRows(pixels), types)
  {
    hide ValidFile, FilePicture, ImageRows, DataOf, ValidStream, StreamBits, StreamOutput;
  }

  lemma PixelPlace(p: Picture, rows: seq<seq<u8>>, types: seq<u8>, pixels: seq<seq<C.Pixel>>, i: nat, j: nat, idx: nat)
    returns (sx: nat, sy: nat)
    requires ValidPicture(p) && ImageRows(p, rows, types) && InPicture(p, idx)
    requires idx % 320 == p.ox + i && idx / 320 == p.oy + j && i < p.dw && j < p.dh
    requires |pixels| == p.height && rows == PixelRows(pixels)
    requires forall r :: 0 <= r < |pixels| ==> |pixels[r]| == p.width && C.OfType(pixels[r], p.colorType)
    ensures SamePlace(sx, p.width, i, p.dw) && SamePlace(sy, p.height, j, p.dh)
    ensures C.PixelShown(pixels[sy][sx], ImageColour(p, rows, types, idx))
  {
    hide C.PixelShown, Sample, C.RowBytes, Scale;
    PictureSize(p);
    ScaledInside(i, p.width, p.dw);
    ScaledInside(j, p.height, p.dh);
    sx, sy := SourceCol(p, i), SourceRow(p, j);
    C.SampleShows(pixels[sy], p.colorType, types[sy], sx);
  }

  lemma PictureSize(p: Picture)
    requires ValidPicture(p)
    ensures p.width > 0 && p.height > 0 && p.bpp == BppOf(p.colorType)
  {
  }
}
