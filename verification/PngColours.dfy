/** The colours of the screen: the palette the decoder sets up, and what the index chosen for a pixel looks like in it;
    and how the scaled size and the sampled places relate to the source. */
module PngColours {
  import opened Bits
  import opened PngFilter
  import opened PngScale

  datatype Colour = Colour(r: u8, g: u8, b: u8)

  /** The colour of a palette entry: a cube of six steps in each channel, and forty greys. */
  function CubeColour(i: u8): Colour {
    if i < 216 then Colour(i / 36 * 51, i / 6 % 6 * 51, i % 6 * 51)
    else
      var v := (i - 216) * 255 / 39;
      Colour(v, v, v)
  }

  predicate Holds(pal: seq<u8>, i: nat)
    requires i < 256 && 3 * i + 2 < |pal|
  {
    Colour(pal[3 * i], pal[3 * i + 1], pal[3 * i + 2]) == CubeColour(i)
  }

  predicate HoldsUpTo(pal: seq<u8>, n: nat) {
    n <= 256 && |pal| == 768 && forall i :: 0 <= i < n ==> Holds(pal, i)
  }

  lemma HoldsNext(before: seq<u8>, pal: seq<u8>, n: nat)
    requires n < 256 && HoldsUpTo(before, n) && |pal| == 768 && pal[..3 * n] == before[..3 * n] && Holds(pal, n)
    ensures HoldsUpTo(pal, n + 1)
  {
    forall i | 0 <= i < n
      ensures Holds(pal, i)
    {
      assert Holds(before, i);
      assert pal[..3 * n][3 * i] == before[..3 * n][3 * i] && pal[..3 * n][3 * i + 1] == before[..3 * n][3 * i + 1]
             && pal[..3 * n][3 * i + 2] == before[..3 * n][3 * i + 2];
    }
  }

  /** Sets the whole palette. */
  method FillCubePalette(pal: array<u8>)
    requires pal.Length == 768
    modifies pal
    ensures HoldsUpTo(pal[..], 256)
  {
    hide Holds, HoldsUpTo, CubeColour;
    ghost var n := 0;
    var i := 0;
    NothingHeld(pal[..]);
    for r := 0 to 6
      invariant n == 36 * r && i == 3 * n && HoldsUpTo(pal[..], n)
    {
      for g := 0 to 6
        invariant n == 36 * r + 6 * g && i == 3 * n && HoldsUpTo(pal[..], n)
      {
        for b := 0 to 6
          invariant n == 36 * r + 6 * g + b && i == 3 * n && HoldsUpTo(pal[..], n)
        {
          ghost var before := pal[..];
          pal[i], pal[i + 1], pal[i + 2] := r * 51, g * 51, b * 51;
          CubeEntry(r, g, b);
          EntryHeld(pal[..], n);
          HoldsNext(before, pal[..], n);
          i, n := i + 3, n + 1;
        }
      }
    }
    for g := 0 to 40
      invariant n == 216 + g && i == 3 * n && HoldsUpTo(pal[..], n)
    {
      ghost var before := pal[..];
      var v := g * 255 / 39;
      pal[i], pal[i + 1], pal[i + 2] := v, v, v;
      GreyEntry(g);
      EntryHeld(pal[..], n);
      HoldsNext(before, pal[..], n);
      i, n := i + 3, n + 1;
    }
  }

  lemma NothingHeld(pal: seq<u8>)
    requires |pal| == 768
    ensures HoldsUpTo(pal, 0)
  {
  }

  lemma CubeEntry(r: nat, g: nat, b: nat)
    requires r < 6 && g < 6 && b < 6
    ensures CubeColour(36 * r + 6 * g + b) == Colour(r * 51, g * 51, b * 51)
  {
    var i := 36 * r + 6 * g + b;
    DivModUnique(i, 36, r, 6 * g + b);
    DivModUnique(i, 6, 6 * r + g, b);
    DivModUnique(6 * r + g, 6, r, g);
  }

  lemma GreyEntry(g: nat)
    requires g < 40
    ensures CubeColour(216 + g) == Colour(g * 255 / 39, g * 255 / 39, g * 255 / 39)
  {
  }

  lemma EntryHeld(pal: seq<u8>, n: nat)
    requires n < 256 && |pal| == 768 && Colour(pal[3 * n], pal[3 * n + 1], pal[3 * n + 2]) == CubeColour(n)
    ensures Holds(pal, n)
  {
  }

  /** A channel of the palette that is the brightest step not above a value. */
  predicate StepBelow(step: u8, v: u8) {
    step % 51 == 0 && step <= v < step + 51
  }

  /** The colour chosen for a pixel is the brightest of the cube that is not brighter in any channel; a grey pixel gets
      a grey that is at most 7 darker. */
  lemma IndexColour(r: u8, g: u8, b: u8)
    ensures var i := RgbToIndex(r, g, b);
            var c := CubeColour(i);
            && (!(r == g == b) ==> i < 216 && StepBelow(c.r, r) && StepBelow(c.g, g) && StepBelow(c.b, b))
            && (r == g == b ==> i >= 216 && c.r == c.g == c.b && c.r <= r < c.r + 8)
  {
    if r == g == b {
      GreyNear(r);
    } else {
      hide CubeColour;
      Steps(r);
      Steps(g);
      Steps(b);
      CubeEntry(r * 5 / 255, g * 5 / 255, b * 5 / 255);
    }
  }

  lemma GreyNear(v: u8)
    ensures var i := 216 + v * 39 / 255;
            var c := CubeColour(i);
            216 <= i < 256 && c.r == c.g == c.b && c.r <= v < c.r + 8
  {
  }

  /** A grey of the palette need not be shown as itself: 6 is the second grey, but a pixel of 6 is shown black. */
  lemma GreyMissed()
    ensures CubeColour(217) == Colour(6, 6, 6) && CubeColour(RgbToIndex(6, 6, 6)) == Colour(0, 0, 0)
  {
  }

  lemma Steps(v: u8)
    ensures v * 5 / 255 < 6 && StepBelow(v * 5 / 255 * 51, v)
  {
  }

  /** Blending with black: an opaque pixel keeps its value, a transparent one is black, and in between it is the
      product of value and opacity, rounded down. */
  lemma BlendMeans(v: u8, a: u8)
    ensures Blend(v, 255) == v && Blend(v, 0) == 0
    ensures Blend(v, a) * 255 <= v * a < (Blend(v, a) + 1) * 255
  {
    ScaleSame(v, 255);
    ScaleNothing(v, 255);
  }

  lemma ScaleSame(x: nat, d: nat)
    requires d > 0
    ensures Scale(x, d, d) == x
  {
    DivModUnique(x * d, d, x, 0);
  }

  lemma ScaleNothing(x: nat, d: nat)
    requires d > 0
    ensures Scale(x, 0, d) == 0
  {
    DivModUnique(0, d, 0, 0);
  }

  // Pixels.

  /** A pixel in one of the five colour types. */
  datatype Pixel = Grey(v: u8) | Rgb(r: u8, g: u8, b: u8) | Indexed(i: u8) | GreyAlpha(v: u8, a: u8)
                 | Rgba(r: u8, g: u8, b: u8, a: u8)

  function TypeOf(p: Pixel): u8 {
    match p
    case Grey(_) => 0 case Rgb(_, _, _) => 2 case Indexed(_) => 3 case GreyAlpha(_, _) => 4 case Rgba(_, _, _, _) => 6
  }

  function PixelBytes(p: Pixel): seq<u8> {
    match p
    case Grey(v) => [v]
    case Rgb(r, g, b) => [r, g, b]
    case Indexed(i) => [i]
    case GreyAlpha(v, a) => [v, a]
    case Rgba(r, g, b, a) => [r, g, b, a]
  }

  function RowBytes(ps: seq<Pixel>): seq<u8> {
    if ps == [] then [] else PixelBytes(ps[0]) + RowBytes(ps[1..])
  }

  predicate OfType(ps: seq<Pixel>, colorType: u8) {
    forall i :: 0 <= i < |ps| ==> TypeOf(ps[i]) == colorType
  }

  /** A channel of the screen's colour that shows a value times an opacity, up to one step of the cube. */
  predicate Shows(shown: u8, v: u8, a: u8) {
    shown * 255 <= v * a < (shown + 52) * 255
  }

  /** The index shows the pixel: the entry itself for palette images, and otherwise a colour that is the pixel's,
      blended with black, to within one step in each channel. */
  predicate PixelShown(p: Pixel, index: u8) {
    var c := CubeColour(index);
    match p
    case Indexed(i) => index == i
    case Grey(v) => Shows(c.r, v, 255) && Shows(c.g, v, 255) && Shows(c.b, v, 255)
    case Rgb(r, g, b) => Shows(c.r, r, 255) && Shows(c.g, g, 255) && Shows(c.b, b, 255)
    case GreyAlpha(v, a) => Shows(c.r, v, a) && Shows(c.g, v, a) && Shows(c.b, v, a)
    case Rgba(r, g, b, a) => Shows(c.r, r, a) && Shows(c.g, g, a) && Shows(c.b, b, a)
  }

  lemma PixelLength(p: Pixel)
    ensures |PixelBytes(p)| == BppOf(TypeOf(p))
  {
  }

  lemma {:induction false} PixelAt(ps: seq<Pixel>, colorType: u8, sx: nat, bpp: nat)
    requires OfType(ps, colorType) && sx < |ps| && bpp == BppOf(colorType)
    ensures sx * bpp + bpp <= |RowBytes(ps)| && RowBytes(ps)[sx * bpp..sx * bpp + bpp] == PixelBytes(ps[sx])
    decreases |ps|
  {
    hide BppOf, PixelBytes, TypeOf;
    var first, rest := PixelBytes(ps[0]), RowBytes(ps[1..]);
    PixelLength(ps[0]);
    if sx > 0 {
      PixelAt(ps[1..], colorType, sx - 1, bpp);
      NextMultiple(sx - 1, bpp);
      SliceBehind(first, rest, (sx - 1) * bpp, bpp);
    } else {
      assert (first + rest)[0..bpp] == first;
    }
  }

  lemma SliceBehind(first: seq<u8>, rest: seq<u8>, k: nat, n: nat)
    requires k + n <= |rest|
    ensures (first + rest)[|first| + k..|first| + k + n] == rest[k..k + n]
  {
  }

  lemma ShownChannel(v: u8, a: u8, c: u8)
    requires c <= Blend(v, a) < c + 52
    ensures Shows(c, v, a)
  {
    hide Blend;
    BlendMeans(v, a);
  }

  /** The colour chosen for a pixel is within a step of it. */
  lemma NearColour(r: u8, g: u8, b: u8)
    ensures var c := CubeColour(RgbToIndex(r, g, b));
            c.r <= r < c.r + 52 && c.g <= g < c.g + 52 && c.b <= b < c.b + 52
  {
    if r == g == b {
      GreyNear(r);
    } else {
      hide CubeColour, RgbToIndex;
      IndexColour(r, g, b);
    }
  }

  lemma ShownRgb(r: u8, g: u8, b: u8, a: u8)
    ensures var c := CubeColour(RgbToIndex(Blend(r, a), Blend(g, a), Blend(b, a)));
            Shows(c.r, r, a) && Shows(c.g, g, a) && Shows(c.b, b, a)
  {
    hide CubeColour, RgbToIndex, Blend, Shows;
    NearColour(Blend(r, a), Blend(g, a), Blend(b, a));
    var c := CubeColour(RgbToIndex(Blend(r, a), Blend(g, a), Blend(b, a)));
    ShownChannel(r, a, c.r);
    ShownChannel(g, a, c.g);
    ShownChannel(b, a, c.b);
  }

  /** The sample taken from a scanline, whose first byte is the filter type, shows the pixel of that place. */
  lemma SampleShows(ps: seq<Pixel>, colorType: u8, filter: u8, sx: nat)
    requires OfType(ps, colorType) && sx < |ps|
    ensures colorType in {0, 2, 3, 4, 6} && sx * BppOf(colorType) + BppOf(colorType) < |[filter] + RowBytes(ps)|
    ensures PixelShown(ps[sx], Sample(colorType, BppOf(colorType), [filter] + RowBytes(ps), sx))
  {
    hide CubeColour, RgbToIndex, Blend, Shows, RowBytes;
    assert TypeOf(ps[sx]) == colorType;
    var bpp := BppOf(colorType);
    PixelAt(ps, colorType, sx, bpp);
    var row, p := [filter] + RowBytes(ps), 1 + sx * bpp;
    SliceBehind([filter], RowBytes(ps), sx * bpp, bpp);
    ghost var bytes := row[p..p + bpp];
    assert bytes == PixelBytes(ps[sx]);
    assert bpp == |bytes| && bytes[0] == row[p] && (bpp > 1 ==> bytes[1] == row[p + 1])
           && (bpp > 2 ==> bytes[2] == row[p + 2]) && (bpp > 3 ==> bytes[3] == row[p + 3]);
    PixelColours(ps[sx]);
    match ps[sx]
    case Grey(v) => assert row[p] == v;
    case Indexed(i) => assert row[p] == i;
    case Rgb(r, g, b) => assert row[p] == r && row[p + 1] == g && row[p + 2] == b;
    case GreyAlpha(v, a) => assert row[p] == v && row[p + 1] == a;
    case Rgba(r, g, b, a) => assert row[p] == r && row[p + 1] == g && row[p + 2] == b && row[p + 3] == a;
  }

  lemma PixelColours(p: Pixel)
    ensures p.Grey? ==> PixelShown(p, RgbToIndex(p.v, p.v, p.v))
    ensures p.Rgb? ==> PixelShown(p, RgbToIndex(p.r, p.g, p.b))
    ensures p.GreyAlpha? ==> PixelShown(p, RgbToIndex(Blend(p.v, p.a), Blend(p.v, p.a), Blend(p.v, p.a)))
    ensures p.Rgba? ==> PixelShown(p, RgbToIndex(Blend(p.r, p.a), Blend(p.g, p.a), Blend(p.b, p.a)))
  {
    hide CubeColour, RgbToIndex, Blend, Shows;
    match p
    case Grey(v) =>
      BlendMeans(v, 255);
      ShownRgb(v, v, v, 255);
    case Rgb(r, g, b) =>
      BlendMeans(r, 255);
      BlendMeans(g, 255);
      BlendMeans(b, 255);
      ShownRgb(r, g, b, 255);
    case GreyAlpha(v, a) => ShownRgb(v, v, v, a);
    case Rgba(r, g, b, a) => ShownRgb(r, g, b, a);
    case Indexed(_) =>
  }

  // Sizes and places.

  /** A side in proportion to the other one, as it is in the source: rounded down, but at least one pixel. */
  predicate InProportion(side: nat, other: nat, srcSide: nat, srcOther: nat) {
    side >= 1 && other * srcSide < (side + 1) * srcOther && (side == 1 || side * srcOther <= other * srcSide)
  }

  /** A source that fits keeps its size. Otherwise one side fills its room, and the other one is in proportion. */
  lemma KeepsAspect(srcW: nat, srcH: nat, ox: nat, oy: nat)
    requires 1 <= srcW && 1 <= srcH && ox < 320 && oy < 200
    ensures var (dw, dh) := DestSize(srcW, srcH, ox, oy);
            var roomW, roomH := 320 - ox, 200 - oy;
            if srcW <= roomW && srcH <= roomH then dw == srcW && dh == srcH
            else && dw <= roomW && dh <= roomH
                 && ((dw == roomW && InProportion(dh, dw, srcH, srcW))
                     || (dh == roomH && InProportion(dw, dh, srcW, srcH)))
  {
    hide Scale, InProportion;
    var roomW, roomH := 320 - ox, 200 - oy;
    DestSizeFits(srcW, srcH, ox, oy);
    ScaledProportion(srcH, roomW, srcW);
    ScaledProportion(srcW, roomH, srcH);
  }

  lemma ScaledProportion(srcSide: nat, other: nat, srcOther: nat)
    requires srcOther > 0
    ensures InProportion(AtLeastOne(Scale(srcSide, other, srcOther)), other, srcSide, srcOther)
  {
    hide Scale;
    var r := Scale(srcSide, other, srcOther);
    MulCommutes(srcSide, other);
    NextMultiple(r, srcOther);
    NextMultiple(1, srcOther);
  }

  /** Places on the screen sample the source evenly from its first row and column on; an image that is not scaled is
      shown pixel by pixel. */
  lemma SampledPlaces(p: Picture, dx: nat, dy: nat)
    requires ValidPicture(p)
    ensures SourceCol(p, dx) * p.dw <= dx * p.width < (SourceCol(p, dx) + 1) * p.dw
    ensures SourceRow(p, dy) * p.dh <= dy * p.height < (SourceRow(p, dy) + 1) * p.dh
    ensures p.dw == p.width ==> SourceCol(p, dx) == dx
    ensures p.dh == p.height ==> SourceRow(p, dy) == dy
  {
    hide Scale;
    ScaleSame(dx, p.dw);
    ScaleSame(dy, p.dh);
    NextMultiple(SourceCol(p, dx), p.dw);
    NextMultiple(SourceRow(p, dy), p.dh);
  }

  lemma NextMultiple(a: nat, d: nat)
    ensures (a + 1) * d == a * d + d
  {
  }

  /** What the filters store: the difference from nothing, from the pixel before, from the row above, or from the mean
      of both rounded down, modulo 256. */
  lemma FilterTypes(raw: seq<u8>, prior: seq<u8>, bpp: nat, i: nat)
    requires i < |raw| == |prior| && bpp > 0
    ensures var x, up, left: int := raw[i], prior[i], if i < bpp then 0 else raw[i - bpp];
            && Filtered(0, raw, prior, bpp)[i] == x
            && (x - left - Filtered(1, raw, prior, bpp)[i]) % 256 == 0
            && (x - up - Filtered(2, raw, prior, bpp)[i]) % 256 == 0
            && exists mean: int :: 2 * mean <= left + up <= 2 * mean + 1 && IsDifference(raw, prior, bpp, i, mean)
  {
    var x, up, left: int := raw[i], prior[i], if i < bpp then 0 else raw[i - bpp];
    StoredByte(0, raw, prior, bpp, i);
    StoredByte(1, raw, prior, bpp, i);
    StoredByte(2, raw, prior, bpp, i);
    StoredByte(3, raw, prior, bpp, i);
    assert Before(raw, i, bpp) == left;
    hide Filtered;
    MeanBounds(left, up);
    assert IsDifference(raw, prior, bpp, i, (left + up) / 2);
  }

  lemma MeanBounds(a: int, b: int)
    ensures 2 * ((a + b) / 2) <= a + b <= 2 * ((a + b) / 2) + 1
  {
  }

  lemma StoredByte(filter: u8, raw: seq<u8>, prior: seq<u8>, bpp: nat, i: nat)
    requires i < |raw| == |prior| && bpp > 0
    ensures var p := Predict(filter, Before(raw, i, bpp), prior[i], Before(prior, i, bpp));
            (raw[i] as int - p - Filtered(filter, raw, prior, bpp)[i]) % 256 == 0
    ensures filter == 0 ==> Filtered(filter, raw, prior, bpp)[i] == raw[i]
  {
    hide Paeth, Before;
    var p := Predict(filter, Before(raw, i, bpp), prior[i], Before(prior, i, bpp));
    Difference(raw[i], p);
  }

  lemma Difference(x: int, p: int)
    ensures (x - p - (x - p) % 0x100) % 256 == 0
  {
  }

  predicate IsDifference(raw: seq<u8>, prior: seq<u8>, bpp: nat, i: nat, mean: int)
    requires i < |raw| == |prior| && bpp > 0
  {
    (raw[i] as int - mean - Filtered(3, raw, prior, bpp)[i]) % 256 == 0
  }
}
