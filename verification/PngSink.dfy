/** The sink of the inflater: a ring of the last 32768 bytes, one scanline at a time undone and drawn scaled. */
module PngSink {
  import opened Bits
  import opened Wrappers
  import opened PngFilter
  import opened PngScale

  const WIN_SIZE := 32768

  /** The offset of row r in the inflated bytes. */
  function Start(stride: nat, r: nat): nat {
    if r == 0 then 0 else Start(stride, r - 1) + stride
  }

  lemma {:induction false} StartIsProduct(stride: nat, r: nat)
    ensures Start(stride, r) == r * stride
  {
    if r > 0 {
      StartIsProduct(stride, r - 1);
      assert r * stride == (r - 1) * stride + stride;
    }
  }

  lemma StartNext(stride: nat, r: nat)
    ensures Start(stride, r + 1) == Start(stride, r) + stride
    ensures Start(stride, r) == if r == 0 then 0 else Start(stride, r - 1) + stride
  {
  }

  lemma {:induction false} StartMonotone(stride: nat, a: nat, b: nat)
    requires a <= b
    ensures Start(stride, a) <= Start(stride, b)
  {
    if a < b {
      StartMonotone(stride, a, b - 1);
    }
  }

  /** Row r of the image: its filter byte, then its unfiltered bytes. */
  function Image(fed: seq<u8>, stride: nat, bpp: nat, r: nat): (row: seq<u8>)
    requires stride > 0 && bpp > 0 && Start(stride, r) + stride <= |fed|
    ensures |row| == stride
  {
    var line := fed[Start(stride, r)..Start(stride, r) + stride];
    var above := if r == 0 then Zeros(stride - 1) else Image(fed, stride, bpp, r - 1)[1..];
    [line[0]] + Unfiltered(line[0], line[1..], Prior(r == 0, above), bpp, stride - 1)
  }

  lemma ImageOfLine(fed: seq<u8>, stride: nat, bpp: nat, r: nat, line: seq<u8>, prior: seq<u8>)
    requires stride > 0 && bpp > 0 && Start(stride, r) + stride <= |fed|
    requires line == fed[Start(stride, r)..Start(stride, r) + stride]
    requires r > 0 ==> Start(stride, r) <= |fed| && prior == Image(fed, stride, bpp, r - 1)[1..]
    requires r == 0 ==> |prior| == stride - 1
    ensures Image(fed, stride, bpp, r)
         == [line[0]] + Unfiltered(line[0], line[1..], Prior(r == 0, prior), bpp, stride - 1)
  {
    hide Unfiltered;
    assert r == 0 ==> Prior(true, prior) == Prior(true, Zeros(stride - 1));
  }

  /** Bytes that arrive later change no complete row. */
  lemma {:induction false} ImageStable(fed: seq<u8>, more: seq<u8>, stride: nat, bpp: nat, r: nat)
    requires stride > 0 && bpp > 0 && Start(stride, r) + stride <= |fed| && fed <= more
    ensures Image(fed, stride, bpp, r) == Image(more, stride, bpp, r)
  {
    hide Unfiltered, Prior, Start;
    StartNext(stride, r);
    assert fed == more[..|fed|];
    var a := Start(stride, r);
    assert fed[a..a + stride] == more[a..a + stride];
    if r > 0 {
      ImageStable(fed, more, stride, bpp, r - 1);
    }
  }

  /** The first n rows name known filters. */
  predicate GoodRows(fed: seq<u8>, stride: nat, n: nat)
    requires stride > 0 && Start(stride, n) <= |fed|
  {
    forall r :: 0 <= r < n ==> GoodRow(fed, stride, r)
  }

  predicate GoodRow(fed: seq<u8>, stride: nat, r: nat) {
    Start(stride, r) < |fed| ==> fed[Start(stride, r)] <= 4
  }

  /** The bytes are acceptable: every complete row of the image names a known filter. */
  predicate Accepts(p: Picture, fed: seq<u8>) {
    forall r :: 0 <= r < p.height && Start(p.stride, r) + p.stride <= |fed| ==> GoodRow(fed, p.stride, r)
  }

  lemma AcceptsPrefix(p: Picture, fed: seq<u8>, more: seq<u8>)
    requires fed <= more && Accepts(p, more) && p.stride > 0
    ensures Accepts(p, fed)
  {
    forall r | 0 <= r < p.height && Start(p.stride, r) + p.stride <= |fed|
      ensures GoodRow(fed, p.stride, r)
    {
      assert GoodRow(more, p.stride, r);
      assert fed[Start(p.stride, r)] == more[Start(p.stride, r)];
    }
  }

  // What is on the screen.

  predicate InPicture(p: Picture, idx: nat) {
    p.ox <= idx % MODE13_W < p.ox + p.dw && p.oy <= idx / MODE13_W < p.oy + p.dh
  }

  /** The pixel shows a source row before y, or row y and comes before (cy, cx) in drawing order. */
  predicate Reached(p: Picture, y: nat, cy: nat, cx: nat, idx: nat)
    requires ValidPicture(p)
  {
    && InPicture(p, idx)
    && var dx, dy := idx % MODE13_W - p.ox, idx / MODE13_W - p.oy;
    && var sy := SourceRow(p, dy);
    sy < y || (sy == y && (dy < cy || (dy == cy && dx < cx)))
  }

  /** The colour a pixel of the picture must have. */
  function Colour(p: Picture, fed: seq<u8>, idx: nat): u8
    requires ValidPicture(p) && InPicture(p, idx)
    requires Start(p.stride, SourceRow(p, idx / MODE13_W - p.oy)) + p.stride <= |fed|
  {
    var dx, dy := idx % MODE13_W - p.ox, idx / MODE13_W - p.oy;
    SampleFits(p, dx);
    Sample(p.colorType, p.bpp, Image(fed, p.stride, p.bpp, SourceRow(p, dy)), SourceCol(p, dx))
  }

  function Shown(p: Picture, fed: seq<u8>, y: nat, cy: nat, cx: nat, idx: nat): u8
    requires ValidPicture(p)
  {
    if Reached(p, y, cy, cx, idx) && Start(p.stride, SourceRow(p, idx / MODE13_W - p.oy)) + p.stride <= |fed|
    then Colour(p, fed, idx) else 0
  }

  predicate Screened(p: Picture, fed: seq<u8>, screen: seq<u8>, y: nat, cy: nat, cx: nat)
    requires ValidPicture(p)
  {
    && |screen| == MODE13_PIXELS
    && forall idx :: 0 <= idx < MODE13_PIXELS ==> screen[idx] == Shown(p, fed, y, cy, cx, idx)
  }

  /** The pixels already drawn. */
  function Touched(p: Picture, y: nat, cy: nat, cx: nat): set<nat>
    requires ValidPicture(p)
  {
    set idx | 0 <= idx < MODE13_PIXELS && Reached(p, y, cy, cx, idx)
  }

  /** How many of the first n destination rows show a source row before y. */
  function RowsBefore(p: Picture, y: nat, n: nat): nat
    requires ValidPicture(p)
  {
    if n == 0 then 0 else RowsBefore(p, y, n - 1) + if SourceRow(p, n - 1) < y then 1 else 0
  }

  lemma {:induction false} AllRows(p: Picture, n: nat)
    requires ValidPicture(p) && n <= p.dh
    ensures RowsBefore(p, p.height, n) == n
  {
    if n > 0 {
      AllRows(p, n - 1);
      ScaledInside(n - 1, p.height, p.dh);
    }
  }

  lemma {:induction false} NoRows(p: Picture, n: nat)
    requires ValidPicture(p)
    ensures RowsBefore(p, 0, n) == 0
  {
    if n > 0 {
      NoRows(p, n - 1);
    }
  }

  lemma ScreenedStable(p: Picture, fed: seq<u8>, more: seq<u8>, screen: seq<u8>, y: nat)
    requires ValidPicture(p) && fed <= more && Start(p.stride, y) <= |fed| && Screened(p, fed, screen, y, 0, 0)
    ensures Screened(p, more, screen, y, 0, 0)
  {
    hide Shown;
    forall idx | 0 <= idx < MODE13_PIXELS
      ensures Shown(p, fed, y, 0, 0, idx) == Shown(p, more, y, 0, 0, idx)
    {
      ShownStable(p, fed, more, y, idx);
    }
  }

  lemma ShownStable(p: Picture, fed: seq<u8>, more: seq<u8>, y: nat, idx: nat)
    requires ValidPicture(p) && fed <= more && Start(p.stride, y) <= |fed|
    ensures Shown(p, fed, y, 0, 0, idx) == Shown(p, more, y, 0, 0, idx)
  {
    hide Start, SourceRow, Image, Sample, SourceCol;
    if Reached(p, y, 0, 0, idx) {
      var dx, sy := idx % MODE13_W - p.ox, SourceRow(p, idx / MODE13_W - p.oy);
      StartNext(p.stride, sy);
      StartMonotone(p.stride, sy + 1, y);
      ImageStable(fed, more, p.stride, p.bpp, sy);
      SampleFits(p, dx);
    }
  }

  lemma PixelPosition(p: Picture, dx: nat, dy: nat)
    requires ValidPicture(p) && dx < p.dw && dy < p.dh
    ensures var idx := (p.oy + dy) * MODE13_W + (p.ox + dx);
            idx < MODE13_PIXELS && idx % MODE13_W == p.ox + dx && idx / MODE13_W == p.oy + dy && InPicture(p, idx)
  {
    DivModUnique((p.oy + dy) * MODE13_W + (p.ox + dx), MODE13_W, p.oy + dy, p.ox + dx);
  }

  /** Drawing one pixel moves the drawing position past it, and no other pixel is there. */
  lemma DrawnPixel(p: Picture, y: nat, dy: nat, dx: nat, idx: nat)
    requires ValidPicture(p) && dx < p.dw && dy < p.dh && SourceRow(p, dy) == y && idx < MODE13_PIXELS
    ensures var at := (p.oy + dy) * MODE13_W + (p.ox + dx);
            Reached(p, y, dy, dx + 1, idx) <==> Reached(p, y, dy, dx, idx) || idx == at
    ensures !Reached(p, y, dy, dx, (p.oy + dy) * MODE13_W + (p.ox + dx))
  {
    hide SourceRow;
    PixelPosition(p, dx, dy);
    assert idx == idx / MODE13_W * MODE13_W + idx % MODE13_W;
  }

  /** The end of a destination row, and of a source row, are the starts of the next. */
  lemma RowEnds(p: Picture, y: nat, dy: nat, idx: nat)
    requires ValidPicture(p) && dy < p.dh
    ensures SourceRow(p, dy) == y ==> (Reached(p, y, dy, p.dw, idx) <==> Reached(p, y, dy + 1, 0, idx))
    ensures SourceRow(p, dy) != y ==> (Reached(p, y, dy, 0, idx) <==> Reached(p, y, dy + 1, 0, idx))
    ensures Reached(p, y, p.dh, 0, idx) <==> Reached(p, y + 1, 0, 0, idx)
  {
    hide SourceRow;
  }

  /** Positions that reach the same pixels show the same screen. */
  lemma SameReach(p: Picture, fed: seq<u8>, screen: seq<u8>, y: nat, cy: nat, cx: nat, y': nat, cy': nat, cx': nat)
    requires ValidPicture(p) && Screened(p, fed, screen, y, cy, cx)
    requires forall idx :: 0 <= idx < MODE13_PIXELS ==> (Reached(p, y, cy, cx, idx) <==> Reached(p, y', cy', cx', idx))
    ensures Screened(p, fed, screen, y', cy', cx') && Touched(p, y', cy', cx') == Touched(p, y, cy, cx)
  {
    hide Reached, Colour, SourceRow;
  }

  lemma AfterLine(p: Picture, fed: seq<u8>, screen: seq<u8>, y: nat, dy: nat)
    requires ValidPicture(p) && dy < p.dh
    requires Screened(p, fed, screen, y, dy, if SourceRow(p, dy) == y then p.dw else 0)
    ensures Screened(p, fed, screen, y, dy + 1, 0)
    ensures Touched(p, y, dy + 1, 0) == Touched(p, y, dy, if SourceRow(p, dy) == y then p.dw else 0)
  {
    hide Reached, SourceRow, Screened, Touched;
    var cx, next := if SourceRow(p, dy) == y then p.dw else 0, dy + 1;
    forall idx | 0 <= idx < MODE13_PIXELS
      ensures Reached(p, y, dy, cx, idx) <==> Reached(p, y, next, 0, idx)
    {
      RowEnds(p, y, dy, idx);
    }
    SameReach(p, fed, screen, y, dy, cx, y, next, 0);
  }

  lemma AfterRow(p: Picture, fed: seq<u8>, screen: seq<u8>, y: nat)
    requires ValidPicture(p) && Screened(p, fed, screen, y, p.dh, 0)
    ensures Screened(p, fed, screen, y + 1, 0, 0) && Touched(p, y + 1, 0, 0) == Touched(p, y, p.dh, 0)
  {
    hide Reached, SourceRow, Screened, Touched;
    forall idx | 0 <= idx < MODE13_PIXELS
      ensures Reached(p, y, p.dh, 0, idx) <==> Reached(p, y + 1, 0, 0, idx)
    {
      RowEnds(p, y, 0, idx);
    }
    SameReach(p, fed, screen, y, p.dh, 0, y + 1, 0, 0);
  }

  /** Drawing the sample of the current row at the next position. */
  lemma DrawOne(p: Picture, fed: seq<u8>, screen: seq<u8>, y: nat, dy: nat, dx: nat, c: u8)
    requires ValidPicture(p) && dx < p.dw && dy < p.dh && SourceRow(p, dy) == y
    requires Start(p.stride, y) + p.stride <= |fed|
    requires SourceCol(p, dx) * p.bpp + p.bpp < p.stride
    requires c == Sample(p.colorType, p.bpp, Image(fed, p.stride, p.bpp, y), SourceCol(p, dx))
    requires Screened(p, fed, screen, y, dy, dx)
    ensures var at := (p.oy + dy) * MODE13_W + (p.ox + dx);
            && at < MODE13_PIXELS && Screened(p, fed, screen[at := c], y, dy, dx + 1)
            && at !in Touched(p, y, dy, dx) && Touched(p, y, dy, dx + 1) == Touched(p, y, dy, dx) + {at}
  {
    hide Reached, SourceRow, SourceCol, Sample, Image;
    var at := (p.oy + dy) * MODE13_W + (p.ox + dx);
    PixelPosition(p, dx, dy);
    forall idx | 0 <= idx < MODE13_PIXELS
      ensures Reached(p, y, dy, dx + 1, idx) <==> Reached(p, y, dy, dx, idx) || idx == at
      ensures !Reached(p, y, dy, dx, at)
    {
      DrawnPixel(p, y, dy, dx, idx);
    }
  }

  lemma MulNext(d: nat, k: nat)
    ensures d * (k + 1) == d * k + d
  {
  }

  /** The next byte keeps the bytes acceptable unless it completes a row whose filter is unknown. */
  lemma AcceptsNext(p: Picture, was: seq<u8>, b: u8, row: nat, col: nat)
    requires p.stride > 0 && row <= p.height && Start(p.stride, row) <= |was| && GoodRows(was, p.stride, row)
    requires row < p.height ==> col < p.stride && |was| == Start(p.stride, row) + col
    ensures Accepts(p, was + [b]) <==>
            (row < p.height && col + 1 == p.stride ==> GoodRow(was + [b], p.stride, row))
  {
    var fed := was + [b];
    forall r | 0 <= r < p.height
      ensures r < row ==> GoodRow(fed, p.stride, r)
      ensures r > row ==> Start(p.stride, r) + p.stride > |fed|
    {
      if r < row {
        StartMonotone(p.stride, r + 1, row);
        assert GoodRow(was, p.stride, r);
        assert fed[Start(p.stride, r)] == was[Start(p.stride, r)];
      } else if r > row {
        StartMonotone(p.stride, row + 1, r);
      }
    }
  }

  lemma GoodRowsNext(fed: seq<u8>, stride: nat, n: nat)
    requires stride > 0 && Start(stride, n) + stride <= |fed| && GoodRows(fed, stride, n) && GoodRow(fed, stride, n)
    ensures GoodRows(fed, stride, n + 1)
  {
  }

  lemma SlotsDiffer(i: nat, n: nat)
    requires n + 1 - WIN_SIZE <= i < n
    ensures i % WIN_SIZE != n % WIN_SIZE
  {
  }

  lemma GoodRowsStable(was: seq<u8>, fed: seq<u8>, stride: nat, n: nat)
    requires stride > 0 && Start(stride, n) <= |was| && was <= fed && GoodRows(was, stride, n)
    ensures GoodRows(fed, stride, n)
  {
    forall r | 0 <= r < n
      ensures GoodRow(fed, stride, r)
    {
      StartMonotone(stride, r + 1, n);
      assert GoodRow(was, stride, r);
      assert fed[Start(stride, r)] == was[Start(stride, r)];
    }
  }

  class Sink {
    const pic: Picture
    const win: array<u8>
    const scan: array<u8>
    const prev: array<u8>
    const screen: array<u8>
    var row: nat
    var col: nat
    var emitted: nat
    var drawn: nat
    ghost var fed: seq<u8>
    ghost var written: set<nat>

    ghost predicate Shape() {
      && ValidPicture(pic)
      && win.Length == WIN_SIZE && scan.Length == prev.Length == MAX_STRIDE && screen.Length == MODE13_PIXELS
      && win != scan && win != prev && win != screen && scan != prev && scan != screen && prev != screen
    }

    /** The ring holds the last 32768 bytes. */
    ghost predicate Ring()
      requires Shape()
      reads `emitted, `fed, win
    {
      emitted == |fed| && forall i :: 0 <= i < |fed| && |fed| - WIN_SIZE <= i ==> win[i % WIN_SIZE] == fed[i]
    }

    /** The current scanline, and the row above it. */
    ghost predicate Lines()
      requires Shape()
      reads `row, `col, `fed, scan, prev
    {
      && row <= pic.height && Start(pic.stride, row) <= |fed| && GoodRows(fed, pic.stride, row)
      && (row < pic.height ==>
            && col < pic.stride && |fed| == Start(pic.stride, row) + col
            && scan[..col] == fed[Start(pic.stride, row)..])
      && (row > 0 ==> prev[..pic.stride] == Above(fed, row))
    }

    ghost function Above(fed: seq<u8>, row: nat): seq<u8>
      requires Shape() && row > 0 && Start(pic.stride, row) <= |fed|
    {
      Image(fed, pic.stride, pic.bpp, row - 1)
    }

    /** What has been drawn: each pixel at most once. */
    ghost predicate Drawn(y: nat, cy: nat, cx: nat)
      requires Shape()
      reads `fed, `written, `drawn, screen
    {
      && Screened(pic, fed, screen[..], y, cy, cx)
      && written == Touched(pic, y, cy, cx) && drawn == |written|
    }

    ghost predicate Counted()
      requires Shape()
      reads `row, `drawn
    {
      drawn == pic.dw * RowsBefore(pic, row, pic.dh)
    }

    ghost predicate Valid()
      reads this, win, scan, prev, screen
    {
      Shape() && Ring() && Lines() && Drawn(row, 0, 0) && Counted()
    }

    /** The sink never holds bytes it would not accept. */
    lemma Accepted()
      requires Valid()
      ensures Accepts(pic, fed)
    {
      hide Screened, Image;
      forall r | 0 <= r < pic.height && Start(pic.stride, r) + pic.stride <= |fed|
        ensures GoodRow(fed, pic.stride, r)
      {
        if r >= row {
          StartMonotone(pic.stride, row, r);
        }
      }
    }

    lemma Strided()
      requires Valid()
      ensures pic.stride > 0
    {
    }

    constructor (pic: Picture)
      requires ValidPicture(pic)
      ensures Valid() && this.pic == pic && fed == []
      ensures fresh(win) && fresh(scan) && fresh(prev) && fresh(screen)
      ensures screen.Length == MODE13_PIXELS
    {
      this.pic := pic;
      win := new u8[WIN_SIZE](_ => 0);
      scan := new u8[MAX_STRIDE](_ => 0);
      prev := new u8[MAX_STRIDE](_ => 0);
      screen := new u8[MODE13_PIXELS](_ => 0);
      row, col, emitted, drawn, fed, written := 0, 0, 0, 0, [], {};
      new;
      NoRows(pic, pic.dh);
      assert Touched(pic, 0, 0, 0) == {};
    }

    /** The byte at a distance back, from the ring: right for every distance up to the ring's size. */
    method CopyByte(dist: nat) returns (r: Result<u8>)
      requires Valid()
      ensures r.Err? <==> dist == 0 || dist > |fed|
      ensures r.Ok? && dist <= WIN_SIZE ==> r.value == fed[|fed| - dist]
    {
      if dist == 0 || dist > emitted {
        return Err;
      }
      return Ok(win[(emitted - dist) % WIN_SIZE]);
    }

    method PushRing(b: u8)
      requires Shape() && Ring()
      modifies win, `emitted, `fed
      ensures Ring() && fed == old(fed) + [b]
    {
      ghost var n := emitted;
      win[emitted % WIN_SIZE] := b;
      emitted := emitted + 1;
      fed := fed + [b];
      forall i | 0 <= i < |fed| && |fed| - WIN_SIZE <= i
        ensures win[i % WIN_SIZE] == fed[i]
      {
        if i < n {
          SlotsDiffer(i, n);
        }
      }
    }

    /** One destination row of the current source row. */
    method DrawLine(dy: nat)
      requires Shape() && row < pic.height && dy < pic.dh && SourceRow(pic, dy) == row
      requires Start(pic.stride, row) + pic.stride <= |fed| && scan[..pic.stride] == Above(fed, row + 1)
      requires Drawn(row, dy, 0)
      modifies screen, `drawn, `written
      ensures Drawn(row, dy, pic.dw) && drawn == old(drawn) + pic.dw
    {
      hide Screened, Touched, Image, Sample, SourceRow, SourceCol;
      var py := pic.oy + dy;
      for dx := 0 to pic.dw
        invariant Drawn(row, dy, dx) && drawn == old(drawn) + dx
      {
        var sx := SourceCol(pic, dx);
        var px := pic.ox + dx;
        SampleFits(pic, dx);
        if px < MODE13_W {
          ghost var before := screen[..];
          var idx := Sample(pic.colorType, pic.bpp, scan[..pic.stride], sx);
          DrawOne(pic, fed, before, row, dy, dx, idx);
          screen[py * MODE13_W + px] := idx;
          assert screen[..] == before[py * MODE13_W + px := idx];
          drawn := drawn + 1;
          written := written + {py * MODE13_W + px};
        }
      }
    }

    /** All destination rows that show the current source row. */
    method DrawRow()
      requires Shape() && row < pic.height
      requires Start(pic.stride, row) + pic.stride <= |fed| && scan[..pic.stride] == Above(fed, row + 1)
      requires Drawn(row, 0, 0) && Counted()
      modifies screen, `drawn, `written
      ensures Drawn(row + 1, 0, 0) && drawn == pic.dw * RowsBefore(pic, row + 1, pic.dh)
    {
      hide Screened, Touched, Image, SourceRow;
      var y := row;
      ghost var base := RowsBefore(pic, y, pic.dh);
      for dy := 0 to pic.dh
        invariant Drawn(y, dy, 0)
        invariant RowsBefore(pic, y, dy) <= RowsBefore(pic, y + 1, dy)
        invariant drawn == pic.dw * (base + RowsBefore(pic, y + 1, dy) - RowsBefore(pic, y, dy))
      {
        MulNext(pic.dw, base + RowsBefore(pic, y + 1, dy) - RowsBefore(pic, y, dy));
        if SourceRow(pic, dy) == y {
          if pic.oy + dy < MODE13_H {
            DrawLine(dy);
          }
        }
        AfterLine(pic, fed, screen[..], y, dy);
      }
      AfterRow(pic, fed, screen[..], y);
    }

    /** A complete scanline: undo its filter in place, draw it, and keep it for the next one. */
    method FinishRow() returns (ok: bool)
      requires Shape() && row < pic.height && |fed| == Start(pic.stride, row) + pic.stride
      requires scan[..pic.stride] == fed[Start(pic.stride, row)..]
      requires row > 0 ==> prev[..pic.stride] == Above(fed, row)
      requires Drawn(row, 0, 0) && Counted()
      modifies scan, prev, screen, `drawn, `written
      ensures ok <==> GoodRow(fed, pic.stride, row)
      ensures ok ==> Drawn(row + 1, 0, 0) && drawn == pic.dw * RowsBefore(pic, row + 1, pic.dh)
      ensures ok ==> prev[..pic.stride] == Above(fed, row + 1)
    {
      hide Screened, Touched, Unfiltered, SourceRow, Image, RowsBefore, Prior;
      var first := row == 0;
      ghost var line, above := scan[..pic.stride], prev[1..pic.stride];
      assert above == prev[..pic.stride][1..];
      assert line[1..] == scan[1..pic.stride];
      ok := UnfilterRow(scan, prev, pic.stride, pic.bpp, first);
      if !ok {
        return;
      }
      ImageOfLine(fed, pic.stride, pic.bpp, row, line, above);
      assert scan[..pic.stride] == [scan[0]] + scan[1..pic.stride];
      DrawRow();
      forall i | 0 <= i < pic.stride {
        prev[i] := scan[i];
      }
      assert prev[..pic.stride] == scan[..pic.stride];
    }

    /** One byte. It fails exactly when it completes a row of the image whose filter is unknown. */
    method Emit(b: u8) returns (ok: bool)
      requires Valid()
      modifies this, win, scan, prev, screen
      ensures ok <==> Accepts(pic, old(fed) + [b])
      ensures ok ==> Valid() && fed == old(fed) + [b]
    {
      hide Screened, Touched, Image, GoodRows, GoodRow, Accepts, RowsBefore, Start, ValidPicture, Sink.Ring;
      StartNext(pic.stride, row);
      StrideNonZero(pic);
      ghost var was := fed;
      AcceptsNext(pic, was, b, row, col);
      ScreenedStable(pic, was, was + [b], screen[..], row);
      GoodRowsStable(was, was + [b], pic.stride, row);
      if row > 0 {
        ImageStable(was, was + [b], pic.stride, pic.bpp, row - 1);
      }
      PushRing(b);
      if row >= pic.height {
        return true;
      }
      if col >= pic.stride {
        return false;
      }
      scan[col] := b;
      col := col + 1;
      assert scan[..col] == fed[Start(pic.stride, row)..];
      if col == pic.stride {
        ok := FinishRow();
        if !ok {
          return;
        }
        GoodRowsNext(fed, pic.stride, row);
        col := 0;
        row := row + 1;
        assert fed[Start(pic.stride, row)..] == [];
      }
      return true;
    }

    /** The row count tells whether all rows have arrived. */
    lemma RowsArrived()
      requires Valid()
      ensures row == pic.height <==> Start(pic.stride, pic.height) <= |fed|
    {
      hide Screened, Image;
      if row < pic.height {
        StartMonotone(pic.stride, row + 1, pic.height);
      }
    }

    /** Once all rows have arrived, the screen is the scaled image: every pixel of the picture was drawn exactly
        once, with the sample of the pixel it shows, and all other pixels are 0. */
    lemma {:induction false} Complete()
      requires Valid() && row == pic.height
      ensures drawn == pic.dw * pic.dh
      ensures written == (set idx | 0 <= idx < MODE13_PIXELS && InPicture(pic, idx)) && drawn == |written|
      ensures forall idx :: 0 <= idx < MODE13_PIXELS ==> screen[idx] == FinalColour(pic, fed, idx)
    {
      hide Shown, FinalColour, SourceRow, Reached, RowsBefore;
      AllRows(pic, pic.dh);
      forall idx | 0 <= idx < MODE13_PIXELS
        ensures Shown(pic, fed, pic.height, 0, 0, idx) == FinalColour(pic, fed, idx)
        ensures Reached(pic, pic.height, 0, 0, idx) <==> InPicture(pic, idx)
      {
        AllShown(pic, fed, idx);
      }
      assert forall idx :: 0 <= idx < MODE13_PIXELS ==> screen[idx] == screen[..][idx];
    }
  }

  function FinalColour(p: Picture, fed: seq<u8>, idx: nat): u8
    requires ValidPicture(p) && Start(p.stride, p.height) <= |fed|
  {
    if InPicture(p, idx) then
      var dy := idx / MODE13_W - p.oy;
      RowInside(p, dy);
      StartMonotone(p.stride, SourceRow(p, dy) + 1, p.height);
      Colour(p, fed, idx)
    else 0
  }

  lemma AllShown(p: Picture, fed: seq<u8>, idx: nat)
    requires ValidPicture(p) && Start(p.stride, p.height) <= |fed|
    ensures Shown(p, fed, p.height, 0, 0, idx) == FinalColour(p, fed, idx)
    ensures Reached(p, p.height, 0, 0, idx) <==> InPicture(p, idx)
  {
    hide Start, SourceRow, Colour;
    if InPicture(p, idx) {
      var dy := idx / MODE13_W - p.oy;
      RowInside(p, dy);
      StartNext(p.stride, SourceRow(p, dy));
      StartMonotone(p.stride, SourceRow(p, dy) + 1, p.height);
    }
  }

  lemma RowInside(p: Picture, dy: nat)
    requires ValidPicture(p) && dy < p.dh
    ensures SourceRow(p, dy) < p.height
  {
    ScaledInside(dy, p.height, p.dh);
  }

  lemma StrideNonZero(p: Picture)
    requires ValidPicture(p)
    ensures 1 < p.stride <= MAX_STRIDE && p.bpp > 0 && p.height > 0
  {
    assert p.width * p.bpp >= p.width;
  }
}
