/** Scanline filtering (section 6 of RFC 2083): the predictors, and undoing a filter in place. */
module PngFilter {
  import opened Bits

  function Paeth(a: u8, b: u8, c: u8): u8 {
    var p := a + b - c;
    var pa, pb, pc := Abs(p - a), Abs(p - b), Abs(p - c);
    if pa <= pb && pa <= pc then a else if pb <= pc then b else c
  }

  /** The Paeth predictor is the neighbour nearest to left + up - upper left; ties go to left, then up. */
  lemma PaethIsNearest(left: u8, up: u8, upLeft: u8)
    ensures var p, r := left + up - upLeft, Paeth(left, up, upLeft);
            && r in [left, up, upLeft]
            && (forall n :: n in [left, up, upLeft] ==> Abs(p - r) <= Abs(p - n))
            && (Abs(p - left) == Abs(p - r) ==> r == left)
            && (Abs(p - up) == Abs(p - r) ==> r == up || r == left)
  {
  }

  function Predict(filter: u8, left: u8, up: u8, upLeft: u8): u8 {
    if filter == 1 then left
    else if filter == 2 then up
    else if filter == 3 then (left + up) / 2
    else if filter == 4 then Paeth(left, up, upLeft)
    else 0
  }

  /** The byte bpp positions before position i of a row, 0 at the left edge. */
  function Before(row: seq<u8>, i: nat, bpp: nat): u8
    requires i <= |row| + bpp
  {
    if bpp <= i then if i - bpp < |row| then row[i - bpp] else 0 else 0
  }

  /** What an encoder stores for byte i of an unfiltered row. */
  function FilterByte(filter: u8, raw: seq<u8>, prior: seq<u8>, bpp: nat, i: nat): u8
    requires i < |raw| == |prior| && bpp > 0
  {
    (raw[i] - Predict(filter, Before(raw, i, bpp), prior[i], Before(prior, i, bpp))) % 0x100
  }

  function Filtered(filter: u8, raw: seq<u8>, prior: seq<u8>, bpp: nat): (r: seq<u8>)
    requires |raw| == |prior| && bpp > 0
    ensures |r| == |raw|
  {
    seq(|raw|, i requires 0 <= i < |raw| => FilterByte(filter, raw, prior, bpp, i))
  }

  /** The first n bytes of the row that a filtered row stands for. */
  function Unfiltered(filter: u8, row: seq<u8>, prior: seq<u8>, bpp: nat, n: nat): (r: seq<u8>)
    requires n <= |row| == |prior| && bpp > 0
    ensures |r| == n
  {
    if n == 0 then [] else
    var done := Unfiltered(filter, row, prior, bpp, n - 1);
    done + [UnfilterByte(filter, row[n - 1], done, prior, bpp)]
  }

  /** The byte after those already known. */
  function UnfilterByte(filter: u8, x: u8, done: seq<u8>, prior: seq<u8>, bpp: nat): u8
    requires |done| < |prior| && bpp > 0
  {
    var i := |done|;
    (x + Predict(filter, Before(done, i, bpp), prior[i], Before(prior, i, bpp))) % 0x100
  }

  lemma {:induction false} UnfilteredPrefix(filter: u8, row: seq<u8>, prior: seq<u8>, bpp: nat, n: nat, m: nat)
    requires n <= m <= |row| == |prior| && bpp > 0
    ensures Unfiltered(filter, row, prior, bpp, m)[..n] == Unfiltered(filter, row, prior, bpp, n)
  {
    if n < m {
      UnfilteredPrefix(filter, row, prior, bpp, n, m - 1);
    }
  }

  /** Undoing a filter gives back the row it was applied to. */
  lemma {:induction false} UnfilterFiltered(filter: u8, raw: seq<u8>, prior: seq<u8>, bpp: nat, n: nat)
    requires n <= |raw| == |prior| && bpp > 0
    ensures Unfiltered(filter, Filtered(filter, raw, prior, bpp), prior, bpp, n) == raw[..n]
  {
    if n > 0 {
      UnfilterFiltered(filter, raw, prior, bpp, n - 1);
      var done, i := raw[..n - 1], n - 1;
      assert Before(done, i, bpp) == Before(raw, i, bpp);
      WrapBack(raw[i], Predict(filter, Before(raw, i, bpp), prior[i], Before(prior, i, bpp)));
      assert raw[..n] == raw[..n - 1] + [raw[n - 1]];
    }
  }

  /** Applying a filter to what undoing it gave is the filtered row again. */
  lemma FilterUnfiltered(filter: u8, row: seq<u8>, prior: seq<u8>, bpp: nat)
    requires |row| == |prior| && bpp > 0
    ensures Filtered(filter, Unfiltered(filter, row, prior, bpp, |row|), prior, bpp) == row
  {
    var raw := Unfiltered(filter, row, prior, bpp, |row|);
    forall i | 0 <= i < |row|
      ensures FilterByte(filter, raw, prior, bpp, i) == row[i]
    {
      UnfilteredPrefix(filter, row, prior, bpp, i, |row|);
      UnfilteredPrefix(filter, row, prior, bpp, i + 1, |row|);
      var done := Unfiltered(filter, row, prior, bpp, i);
      assert raw[i] == raw[..i + 1][i] == UnfilterByte(filter, row[i], done, prior, bpp);
      assert Before(done, i, bpp) == Before(raw, i, bpp);
      WrapBack(row[i], Predict(filter, Before(raw, i, bpp), prior[i], Before(prior, i, bpp)));
    }
  }

  lemma WrapBack(x: u8, p: u8)
    ensures ((x - p) % 0x100 + p) % 0x100 == x
    ensures ((x + p) % 0x100 - p) % 0x100 == x
  {
    assert (x - p) % 0x100 == if x >= p then x - p else x - p + 0x100;
    assert (x + p) % 0x100 == if x + p < 0x100 then x + p else x + p - 0x100;
  }

  function Zeros(n: nat): (r: seq<u8>)
    ensures |r| == n
  {
    seq(n, _ => 0)
  }

  /** The row above: all zero for the first row. */
  function Prior(first: bool, above: seq<u8>): (r: seq<u8>)
    ensures |r| == |above|
  {
    if first then Zeros(|above|) else above
  }

  lemma Neighbours(done: seq<u8>, above: seq<u8>, first: bool, i: nat, bpp: nat)
    requires |done| == i < |above| && bpp > 0
    ensures Before(done, i, bpp) == if i >= bpp then done[i - bpp] else 0
    ensures Prior(first, above)[i] == if first then 0 else above[i]
    ensures Before(Prior(first, above), i, bpp) == if first || i < bpp then 0 else above[i - bpp]
  {
  }

  lemma UnfilteredNone(filter: u8, row: seq<u8>, prior: seq<u8>, bpp: nat)
    requires |row| == |prior| && bpp > 0
    ensures Unfiltered(filter, row, prior, bpp, 0) == []
  {
  }

  lemma UnfilteredNext(filter: u8, row: seq<u8>, prior: seq<u8>, bpp: nat, i: nat, recon: u8)
    requires i < |row| == |prior| && bpp > 0
    requires var done := Unfiltered(filter, row, prior, bpp, i);
             recon == (row[i] + Predict(filter, Before(done, i, bpp), prior[i], Before(prior, i, bpp))) % 0x100
    ensures Unfiltered(filter, row, prior, bpp, i + 1) == Unfiltered(filter, row, prior, bpp, i) + [recon]
  {
  }

  /** Undoing the filter named by the first byte, in place; an unknown filter fails at the first byte of the row. */
  method UnfilterRow(scan: array<u8>, prev: array<u8>, stride: nat, bpp: nat, first: bool) returns (ok: bool)
    requires 1 <= stride <= scan.Length && stride <= prev.Length && scan != prev && bpp > 0
    modifies scan
    ensures ok <==> stride == 1 || old(scan[0]) <= 4
    ensures ok ==> scan[1..stride] == Unfiltered(old(scan[0]), old(scan[1..stride]),
                                                 Prior(first, prev[1..stride]), bpp, stride - 1)
    ensures scan[0] == old(scan[0]) && scan[stride..] == old(scan[stride..])
  {
    hide Unfiltered, UnfilterByte, Paeth, Before, Prior;
    var rowBytes := stride - 1;
    var filter := scan[0];
    ghost var row, prior := scan[1..stride], Prior(first, prev[1..stride]);
    UnfilteredNone(filter, row, prior, bpp);
    for i := 0 to rowBytes
      invariant i == 0 || filter <= 4
      invariant scan[0] == filter && forall k :: 1 + i <= k < scan.Length ==> scan[k] == old(scan[k])
      invariant scan[1..1 + i] == Unfiltered(filter, row, prior, bpp, i)
    {
      ghost var done := scan[1..1 + i];
      var x := scan[1 + i];
      assert x == old(scan[1 + i]) == row[i];
      var left := if i >= bpp then scan[1 + i - bpp] else 0;
      var up := if first then 0 else prev[1 + i];
      var upLeft := if first || i < bpp then 0 else prev[1 + i - bpp];
      Neighbours(done, prev[1..stride], first, i, bpp);
      assert i >= bpp ==> done[i - bpp] == scan[1 + i - bpp];
      var recon;
      match filter {
        case 0 => recon := x;
        case 1 => recon := (x + left) % 0x100;
        case 2 => recon := (x + up) % 0x100;
        case 3 => recon := (x + (left + up) / 2) % 0x100;
        case 4 => recon := (x + Paeth(left, up, upLeft)) % 0x100;
        case _ => return false;
      }
      UnfilteredNext(filter, row, prior, bpp, i, recon);
      scan[1 + i] := recon;
      assert scan[1..1 + (i + 1)] == done + [recon];
    }
    return true;
  }
}
