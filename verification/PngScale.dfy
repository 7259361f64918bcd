/** Where the decoder draws: the destination rectangle, the sample each of its pixels shows, and its colour index. */
module PngScale {
  import opened Bits
  import opened PngFilter

  const MODE13_W := 320
  const MODE13_H := 200
  const MODE13_PIXELS := 64000
  const PNG_MAX_DIM := 4096
  const MAX_STRIDE := 16385

  function Saturating(a: nat, b: nat): nat {
    if a < b then 0 else a - b
  }

  function AtLeastOne(a: nat): nat {
    if a < 1 then 1 else a
  }

  /** x scaled by n / d, rounded down. */
  function Scale(x: nat, n: nat, d: nat): (r: nat)
    requires d > 0
    ensures r * d <= x * n < r * d + d
  {
    ProductNat(x, n);
    var q := x * n / d;
    assert q * d == d * q;
    q
  }

  lemma ProductNat(x: nat, n: nat)
    ensures 0 <= x * n
  {
  }

  function DestSize(srcW: nat, srcH: nat, ox: nat, oy: nat): (nat, nat)
    requires srcW > 0 && srcH > 0
  {
    var maxW, maxH := Saturating(MODE13_W, ox), Saturating(MODE13_H, oy);
    if srcW <= maxW && srcH <= maxH then (srcW, srcH)
    else if srcW * maxH > srcH * maxW then (maxW, AtLeastOne(Scale(srcH, maxW, srcW)))
    else (AtLeastOne(Scale(srcW, maxH, srcH)), maxH)
  }

  /** Scaling is monotone in the sense the bounds need: x * n / d is at most k when x * n <= k * d. */
  lemma ScaleBound(x: nat, n: nat, d: nat, k: nat)
    requires d > 0 && x * n <= k * d
    ensures Scale(x, n, d) <= k
  {
    var r := Scale(x, n, d);
    assert (r - k) * d == r * d - k * d;
    if r > k {
      MulAtLeast(d, r - k);
    }
  }

  lemma MulMonotone(a: nat, b: nat, x: nat, y: nat)
    requires a <= b && x <= y
    ensures a * x <= b * y
  {
    assert b * y == a * x + a * (y - x) + (b - a) * y;
    assert a * (y - x) >= 0 && (b - a) * y >= 0;
  }

  /** The longer side decides: a source that does not fit and is relatively wider than the screen is too wide. */
  lemma WiderIsTooWide(srcW: nat, srcH: nat, maxW: nat, maxH: nat)
    requires maxW > 0 && srcW * maxH > srcH * maxW && !(srcW <= maxW && srcH <= maxH)
    ensures srcW > maxW
  {
    if srcW <= maxW {
      MulMonotone(srcW, maxW, maxH, srcH);
    }
  }

  lemma TallerIsTooTall(srcW: nat, srcH: nat, maxW: nat, maxH: nat)
    requires srcW > 0 && maxH > 0 && srcW * maxH <= srcH * maxW && !(srcW <= maxW && srcH <= maxH)
    ensures srcH >= maxH
  {
    if srcH < maxH {
      MulMonotone(srcH, maxH - 1, maxW, srcW);
    }
  }

  /** The scaled image is never empty, never larger than the source, and lies on the screen. */
  lemma DestSizeFits(srcW: nat, srcH: nat, ox: nat, oy: nat)
    requires 1 <= srcW && 1 <= srcH && ox < MODE13_W && oy < MODE13_H
    ensures var (dw, dh) := DestSize(srcW, srcH, ox, oy);
            && 1 <= dw <= MODE13_W - ox && 1 <= dh <= MODE13_H - oy
            && dw <= srcW && dh <= srcH
  {
    hide Scale;
    var maxW, maxH := MODE13_W - ox, MODE13_H - oy;
    if srcW <= maxW && srcH <= maxH {
    } else if srcW * maxH > srcH * maxW {
      WiderIsTooWide(srcW, srcH, maxW, maxH);
      ShrunkFits(srcH, srcW, maxW, maxH);
    } else {
      TallerIsTooTall(srcW, srcH, maxW, maxH);
      ShrunkFits(srcW, srcH, maxH, maxW);
    }
  }

  /** Scaling the shorter side along with the longer one. */
  lemma ShrunkFits(side: nat, long: nat, max: nat, room: nat)
    requires long > 0 && max <= long && side * max <= long * room
    ensures Scale(side, max, long) <= side && Scale(side, max, long) <= room
  {
    hide Scale;
    MulMonotone(side, side, max, long);
    ScaleBound(side, max, long, side);
    MulCommutes(long, room);
    ScaleBound(side, max, long, room);
  }

  lemma MulCommutes(a: nat, b: nat)
    ensures a * b == b * a
  {
  }

  /** The image and where it is drawn. */
  datatype Picture = Picture(width: nat, height: nat, bpp: nat, colorType: u8, stride: nat,
                             ox: nat, oy: nat, dw: nat, dh: nat)

  function BppOf(colorType: u8): nat {
    if colorType == 2 then 3 else if colorType == 4 then 2 else if colorType == 6 then 4 else 1
  }

  predicate ValidPicture(p: Picture) {
    && p.colorType in {0, 2, 3, 4, 6} && p.bpp == BppOf(p.colorType)
    && 1 <= p.width && 1 <= p.height
    && p.stride == p.width * p.bpp + 1 <= MAX_STRIDE
    && 1 <= p.dw <= MODE13_W - p.ox && 1 <= p.dh <= MODE13_H - p.oy
  }

  function RgbToIndex(r: u8, g: u8, b: u8): u8 {
    if r == g == b then 216 + r * 39 / 255
    else r * 5 / 255 * 36 + g * 5 / 255 * 6 + b * 5 / 255
  }

  function Blend(v: u8, a: u8): u8 {
    Blended(v, a);
    Scale(v, a, 255)
  }

  lemma Blended(v: u8, a: u8)
    ensures Scale(v, a, 255) <= 255
  {
    MulMonotone(v, 255, a, 255);
    ScaleBound(v, a, 255, 255);
  }

  /** The palette index of pixel sx of an unfiltered row, whose byte 0 is the filter type. */
  function Sample(colorType: u8, bpp: nat, row: seq<u8>, sx: nat): u8
    requires colorType in {0, 2, 3, 4, 6} && bpp == BppOf(colorType) && sx * bpp + bpp < |row|
  {
    var p := 1 + sx * bpp;
    match colorType
    case 0 => RgbToIndex(row[p], row[p], row[p])
    case 3 => row[p]
    case 2 => RgbToIndex(row[p], row[p + 1], row[p + 2])
    case 4 =>
      var g := Blend(row[p], row[p + 1]);
      RgbToIndex(g, g, g)
    case _ =>
      RgbToIndex(Blend(row[p], row[p + 3]), Blend(row[p + 1], row[p + 3]), Blend(row[p + 2], row[p + 3]))
  }

  /** The source row and column that a destination row and column show. */
  function SourceRow(p: Picture, dy: nat): nat
    requires ValidPicture(p)
  {
    Scale(dy, p.height, p.dh)
  }

  function SourceCol(p: Picture, dx: nat): nat
    requires ValidPicture(p)
  {
    Scale(dx, p.width, p.dw)
  }

  lemma ScaledInside(d: nat, n: nat, m: nat)
    requires d < m && n > 0
    ensures Scale(d, n, m) < n
  {
    MulMonotone(d, m - 1, n, n);
    assert (m - 1) * n == n * m - n;
    var r := Scale(d, n, m);
    if r >= n {
      MulMonotone(n, r, m, m);
    }
  }

  lemma SampleFits(p: Picture, dx: nat)
    requires ValidPicture(p) && dx < p.dw
    ensures SourceCol(p, dx) * p.bpp + p.bpp < p.stride
  {
    ScaledInside(dx, p.width, p.dw);
    var sx := SourceCol(p, dx);
    assert p.width * p.bpp == sx * p.bpp + (p.width - sx) * p.bpp;
    assert (p.width - sx) * p.bpp == p.bpp + (p.width - sx - 1) * p.bpp;
    assert (p.width - sx - 1) * p.bpp >= 0;
  }
}
