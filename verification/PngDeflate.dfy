/** The meaning of a DEFLATE stream (RFC 1951): what its bits expand to, over the whole output. */
module PngDeflate {
  import opened Bits
  import opened Wrappers
  import opened PngBits
  import opened PngHuffman

  function LenBase(i: nat): nat
    requires i < 29
  {
    [3, 4, 5, 6, 7, 8, 9, 10, 11, 13, 15, 17, 19, 23, 27, 31, 35, 43, 51, 59, 67, 83, 99, 115, 131,
     163, 195, 227, 258][i]
  }

  function LenExtra(i: nat): nat
    requires i < 29
  {
    [0, 0, 0, 0, 0, 0, 0, 0, 1, 1, 1, 1, 2, 2, 2, 2, 3, 3, 3, 3, 4, 4, 4, 4, 5, 5, 5, 5, 0][i]
  }

  function DistBase(i: nat): nat
    requires i < 30
  {
    [1, 2, 3, 4, 5, 7, 9, 13, 17, 25, 33, 49, 65, 97, 129, 193, 257, 385, 513, 769, 1025, 1537, 2049,
     3073, 4097, 6145, 8193, 12289, 16385, 24577][i]
  }

  function DistExtra(i: nat): nat
    requires i < 30
  {
    [0, 0, 0, 0, 1, 1, 2, 2, 3, 3, 4, 4, 5, 5, 6, 6, 7, 7, 8, 8, 9, 9, 10, 10, 11, 11, 12, 12, 13, 13][i]
  }

  function ClenOrder(i: nat): (r: nat)
    requires i < 19
    ensures r < 19
  {
    [16, 17, 18, 0, 8, 7, 9, 6, 10, 5, 11, 4, 12, 3, 13, 2, 14, 1, 15][i]
  }

  /** Each table row starts where the one before ends, so the rows tile the distances 1 to 32768. */
  lemma DistancesTile(i: nat)
    requires i < 30
    ensures DistBase(i) + Pow2(DistExtra(i)) == if i == 29 then 32769 else DistBase(i + 1)
  {
    Powers();
  }

  lemma Powers()
    ensures Pow2(0) == 1 && Pow2(1) == 2 && Pow2(2) == 4 && Pow2(3) == 8 && Pow2(4) == 16 && Pow2(5) == 32
    ensures Pow2(6) == 64 && Pow2(7) == 128 && Pow2(8) == 256 && Pow2(9) == 512 && Pow2(10) == 1024
    ensures Pow2(11) == 2048 && Pow2(12) == 4096 && Pow2(13) == 8192
  {
  }

  /** No distance that the tables can produce is further back than the ring reaches. */
  lemma DistanceInWindow(i: nat, extra: seq<bit>)
    requires i < 30 && |extra| == DistExtra(i)
    ensures 1 <= DistBase(i) + Number(extra) <= 32768
  {
    hide Number, Pow2;
    Powers();
    DistancesTile(i);
  }

  /** A match: n bytes, each a copy of the byte dist before it, so that a match may overlap itself. */
  function Copy(out: seq<u8>, dist: nat, n: nat): (r: seq<u8>)
    requires 1 <= dist <= |out|
    ensures |r| == |out| + n && out <= r
  {
    if n == 0 then out else
    var done := Copy(out, dist, n - 1);
    done + [done[|done| - dist]]
  }

  lemma {:induction false} CopyPrefix(out: seq<u8>, dist: nat, k: nat, n: nat)
    requires 1 <= dist <= |out| && k <= n
    ensures Copy(out, dist, k) <= Copy(out, dist, n)
  {
    if k < n {
      CopyPrefix(out, dist, k, n - 1);
    }
  }

  /** A match repeats the last dist bytes for as long as it goes on. */
  lemma {:induction false} CopyRepeats(out: seq<u8>, dist: nat, n: nat, i: nat)
    requires 1 <= dist <= |out| && i < n
    ensures Copy(out, dist, n)[|out| + i] == out[|out| - dist + i % dist]
    decreases i
  {
    CopiedByte(out, dist, n, i);
    if i >= dist {
      CopyRepeats(out, dist, i, i - dist);
      ModStep(i, dist);
    } else {
      DivModUnique(i, dist, 0, i);
      CopyPrefix(out, dist, 0, i);
    }
  }

  lemma CopiedByte(out: seq<u8>, dist: nat, n: nat, i: nat)
    requires 1 <= dist <= |out| && i < n
    ensures Copy(out, dist, n)[|out| + i] == Copy(out, dist, i)[|out| + i - dist]
  {
    CopyPrefix(out, dist, i + 1, n);
    assert Copy(out, dist, n)[|out| + i] == Copy(out, dist, i + 1)[|out| + i];
  }

  lemma ModStep(i: nat, d: nat)
    requires 1 <= d <= i
    ensures i % d == (i - d) % d
  {
    var q, r := (i - d) / d, (i - d) % d;
    assert i - d == d * q + r;
    assert i == d * (q + 1) + r;
    DivModUnique(i, d, q + 1, r);
  }

  /** The symbol whose codeword comes next. */
  ghost function Next(lengths: seq<u8>, bits: seq<bit>, at: nat): (r: Option<nat>)
    ensures r.Some? ==> r.value < |lengths| && lengths[r.value] > 0 && at + lengths[r.value] <= |bits|
  {
    if exists s :: Spells(lengths, s, bits, at) then
      var s :| Spells(lengths, s, bits, at);
      Some(s)
    else None
  }

  lemma NextIs(lengths: seq<u8>, bits: seq<bit>, at: nat, s: nat)
    requires Spells(lengths, s, bits, at)
    ensures Next(lengths, bits, at) == Some(s)
  {
    PrefixFree(lengths, Next(lengths, bits, at).value, s, bits, at);
  }

  datatype Output = Output(out: seq<u8>, at: nat)

  /** A block of literals and matches, up to its end-of-block symbol. */
  ghost function Block(lit: seq<u8>, dist: seq<u8>, bits: seq<bit>, at: nat, out: seq<u8>): (r: Result<Output>)
    ensures r.Ok? ==> at <= r.value.at <= |bits| && out <= r.value.out
    decreases |bits| - at
  {
    var next := Next(lit, bits, at);
    if next.None? then Err else
    var sym, a := next.value, at + lit[next.value];
    if sym < 256 then Block(lit, dist, bits, a, out + [sym])
    else if sym == 256 then Ok(Output(out, a))
    else if sym > 285 then Err else
    var m := Match(dist, bits, a, sym - 257);
    if m.Err? || m.value.dist == 0 || m.value.dist > |out| then Err
    else Block(lit, dist, bits, m.value.at, Copy(out, m.value.dist, m.value.len))
  }

  datatype MatchCode = MatchCode(len: nat, dist: nat, at: nat)

  /** The length and distance of a match, after its length symbol 257 + i. */
  ghost function Match(dist: seq<u8>, bits: seq<bit>, at: nat, i: nat): (r: Result<MatchCode>)
    requires i < 29
    ensures r.Ok? ==> at < r.value.at <= |bits|
  {
    var a := at + LenExtra(i);
    if a > |bits| then Err else
    var next := Next(dist, bits, a);
    if next.None? || next.value >= 30 then Err else
    var b := a + dist[next.value];
    var c := b + DistExtra(next.value);
    if c > |bits| then Err else
    Ok(MatchCode(LenBase(i) + Number(bits[at..a]), DistBase(next.value) + Number(bits[b..c]), c))
  }

  /** n bytes from a bit position on. */
  function Bytes(bits: seq<bit>, at: nat, n: nat): (r: seq<u8>)
    requires at + 8 * n <= |bits|
    ensures |r| == n
  {
    if n == 0 then [] else
    var p := at + 8 * (n - 1);
    assert Pow2(8) == 256;
    Bytes(bits, at, n - 1) + [Number(bits[p..p + 8])]
  }

  /** A stored block: a length, its complement, and that many bytes, from the next byte boundary on. */
  function Stored(bits: seq<bit>, at: nat, out: seq<u8>): (r: Result<Output>)
    ensures r.Ok? ==> at <= r.value.at <= |bits| && out <= r.value.out
  {
    var a := NextBoundary(at);
    if a + 32 > |bits| then Err else
    var len := Number(bits[a..a + 16]);
    if len + Number(bits[a + 16..a + 32]) != 0xFFFF || a + 32 + 8 * len > |bits| then Err
    else Ok(Output(out + Bytes(bits, a + 32, len), a + 32 + 8 * len))
  }

  function Repeat(v: u8, n: nat): (r: seq<u8>)
    ensures |r| == n
  {
    seq(n, _ => v)
  }

  /** The fixed code lengths (section 3.2.6 of RFC 1951). */
  function FixedLit(): (r: seq<u8>)
    ensures |r| == 288
  {
    Repeat(8, 144) + Repeat(9, 112) + Repeat(7, 24) + Repeat(8, 8)
  }

  function FixedDist(): (r: seq<u8>)
    ensures |r| == 32
  {
    Repeat(5, 32)
  }

  /** The code lengths of the code length code, n of which are given, three bits each. */
  function ClenLengths(bits: seq<bit>, at: nat, n: nat): (r: seq<u8>)
    requires n <= 19 && at + 3 * n <= |bits|
    ensures |r| == 19
  {
    if n == 0 then Repeat(0, 19) else
    var p := at + 3 * (n - 1);
    assert Pow2(3) == 8;
    ClenLengths(bits, at, n - 1)[ClenOrder(n - 1) := Number(bits[p..p + 3])]
  }

  datatype Lengths = Lengths(lengths: seq<u8>, at: nat)

  /** Run-length expansion of code lengths (section 3.2.7), until there are total of them. */
  ghost function Expand(clen: seq<u8>, bits: seq<bit>, at: nat, total: nat, acc: seq<u8>): (r: Result<Lengths>)
    requires |acc| <= total && |clen| == 19 && at <= |bits|
    ensures r.Ok? ==> |r.value.lengths| == total && at <= r.value.at <= |bits|
    decreases |bits| - at
  {
    if |acc| == total then Ok(Lengths(acc, at)) else
    var next := Next(clen, bits, at);
    if next.None? then Err else
    var sym, a := next.value, at + clen[next.value];
    if sym < 16 then Expand(clen, bits, a, total, acc + [sym])
    else if (sym == 16 && acc == []) || a + RunBits(sym) > |bits| then Err else
    var b := a + RunBits(sym);
    var reps := RunBase(sym) + Number(bits[a..b]);
    if |acc| + reps > total then Err
    else Expand(clen, bits, b, total, acc + Repeat(if sym == 16 then acc[|acc| - 1] else 0, reps))
  }

  function RunBits(sym: nat): nat {
    if sym == 16 then 2 else if sym == 17 then 3 else 7
  }

  function RunBase(sym: nat): nat {
    if sym == 18 then 11 else 3
  }

  /** The code lengths of a dynamic block, after its counts. */
  ghost function CodeLengths(bits: seq<bit>, at: nat, hclen: nat, total: nat): (r: Result<Lengths>)
    requires hclen <= 19
    ensures r.Ok? ==> |r.value.lengths| == total && at <= r.value.at <= |bits|
  {
    if at + 3 * hclen > |bits| then Err else
    var clen := ClenLengths(bits, at, hclen);
    if !Buildable(clen) then Err else Expand(clen, bits, at + 3 * hclen, total, [])
  }

  datatype Trees = Trees(lit: seq<u8>, dist: seq<u8>, at: nat)

  /** The code lengths that a dynamic block describes. */
  ghost function Dynamic(bits: seq<bit>, at: nat): (r: Result<Trees>)
    ensures r.Ok? ==> at <= r.value.at <= |bits| && Buildable(r.value.lit) && Buildable(r.value.dist)
  {
    if at + 14 > |bits| then Err else
    var hlit := Number(bits[at..at + 5]) + 257;
    var hdist := Number(bits[at + 5..at + 10]) + 1;
    var hclen := Number(bits[at + 10..at + 14]) + 4;
    if hlit > 286 || hdist > 32 || hclen > 19 then Err else
    var e := CodeLengths(bits, at + 14, hclen, hlit + hdist);
    if e.Err? then Err else
    var lit, dist := e.value.lengths[..hlit], e.value.lengths[hlit..];
    if Buildable(lit) && Buildable(dist) then Ok(Trees(lit, dist, e.value.at)) else Err
  }

  /** One block after its three header bits. */
  ghost function BlockOf(btype: nat, bits: seq<bit>, at: nat, out: seq<u8>): (r: Result<Output>)
    ensures r.Ok? ==> at <= r.value.at <= |bits| && out <= r.value.out
  {
    if btype == 0 then Stored(bits, at, out)
    else if btype == 1 then Block(FixedLit(), FixedDist(), bits, at, out)
    else if btype == 2 then
      var t := Dynamic(bits, at);
      if t.Err? then Err else Block(t.value.lit, t.value.dist, bits, t.value.at, out)
    else Err
  }

  /** A sequence of blocks up to the one marked final. */
  ghost function Inflate(bits: seq<bit>, at: nat, out: seq<u8>): (r: Result<Output>)
    ensures r.Ok? ==> at <= r.value.at <= |bits| && out <= r.value.out
    decreases |bits| - at
  {
    if at + 3 > |bits| then Err else
    var b := BlockOf(Number(bits[at + 1..at + 3]), bits, at + 3, out);
    if b.Err? then Err
    else if Number(bits[at..at + 1]) == 1 then b
    else Inflate(bits, b.value.at, b.value.out)
  }

  /** How a block goes on after its next symbol. */
  lemma BlockStep(ll: seq<u8>, dl: seq<u8>, bits: seq<bit>, at: nat, out: seq<u8>, sym: nat)
    requires Spells(ll, sym, bits, at)
    ensures ll[sym] > 0 && at + ll[sym] <= |bits|
    ensures var a := at + ll[sym];
            Block(ll, dl, bits, at, out)
            == if sym < 256 then Block(ll, dl, bits, a, out + [sym])
               else if sym == 256 then Ok(Output(out, a))
               else if sym > 285 then Err else
               var m := Match(dl, bits, a, sym - 257);
               if m.Err? || m.value.dist == 0 || m.value.dist > |out| then Err
               else Block(ll, dl, bits, m.value.at, Copy(out, m.value.dist, m.value.len))
  {
    hide Match, Spells;
    NextIs(ll, bits, at, sym);
  }

  lemma BlockEnds(ll: seq<u8>, dl: seq<u8>, bits: seq<bit>, at: nat, out: seq<u8>)
    requires !exists s :: Spells(ll, s, bits, at)
    ensures Block(ll, dl, bits, at, out).Err?
  {
  }

  // The fixed trees.

  lemma {:induction false} WithLengthAppend(a: seq<u8>, v: u8, n: nat, len: nat)
    ensures |WithLength(a + Repeat(v, n), len)| == |WithLength(a, len)| + if v == len then n else 0
  {
    if n == 0 {
      assert a + Repeat(v, 0) == a;
    } else {
      var l := a + Repeat(v, n);
      assert l[..|l| - 1] == a + Repeat(v, n - 1);
      WithLengthAppend(a, v, n - 1, len);
    }
  }

  /** How many symbols of the fixed literal code among the first n have len bits. */
  function FixedCount(n: nat, len: nat): nat {
    if len == 8 then (if n < 144 then n else if n < 280 then 144 else n - 136)
    else if len == 9 then (if n < 144 then 0 else if n < 256 then n - 144 else 112)
    else if len == 7 then (if n < 256 then 0 else if n < 280 then n - 256 else 24)
    else 0
  }

  lemma {:induction false} FixedLitCounts(n: nat, len: nat)
    requires n <= 288
    ensures |WithLength(FixedLit()[..n], len)| == FixedCount(n, len)
  {
    if n > 0 {
      FixedLitCounts(n - 1, len);
      assert FixedLit()[..n][..n - 1] == FixedLit()[..n - 1];
    }
  }

  /** The fixed literal codes are those of the table in section 3.2.6 of RFC 1951. */
  lemma FixedCodes(sym: nat)
    requires sym < 288
    ensures Code(FixedLit(), sym)
         == if sym < 144 then 0x30 + sym
            else if sym < 256 then 0x190 + (sym - 144)
            else if sym < 280 then sym - 256
            else 0xC0 + (sym - 280)
  {
    hide WithLength, FixedLit, FirstCode;
    FixedLength(sym);
    FixedLitCounts(sym, FixedLit()[sym]);
    FixedFirst(9);
  }

  lemma FixedLength(sym: nat)
    requires sym < 288
    ensures FixedLit()[sym] == if sym < 144 then 8 else if sym < 256 then 9 else if sym < 280 then 7 else 8
  {
  }

  lemma {:induction false} FixedFirst(len: nat)
    requires 1 <= len <= 9
    ensures FirstCode(FixedLit(), len) == if len == 9 then 400 else if len == 8 then 48 else 0
    ensures len == 9 ==> FirstCode(FixedLit(), 8) == 48 && FirstCode(FixedLit(), 7) == 0
  {
    hide WithLength, FixedLit;
    if len > 1 {
      FixedFirst(len - 1);
      FixedLitCounts(288, len - 1);
      assert FixedLit()[..288] == FixedLit();
      if len == 9 {
        FixedFirst(7);
      }
    }
  }

  lemma {:induction false} KraftAppend(a: seq<u8>, v: u8, n: nat)
    requires (forall i :: 0 <= i < |a| ==> a[i] <= 15) && 1 <= v <= 15
    ensures forall i :: 0 <= i < |a + Repeat(v, n)| ==> (a + Repeat(v, n))[i] <= 15
    ensures Kraft(a + Repeat(v, n)) == Kraft(a) + n * Pow2(15 - v)
  {
    hide Pow2;
    if n == 0 {
      assert a + Repeat(v, 0) == a;
    } else {
      var l := a + Repeat(v, n);
      assert l[..|l| - 1] == a + Repeat(v, n - 1);
      KraftAppend(a, v, n - 1);
      MulLess(n, Pow2(15 - v));
    }
  }

  lemma MulLess(n: nat, p: nat)
    ensures (n - 1) * p + p == n * p
  {
  }

  lemma {:induction false} UsedBound(lengths: seq<u8>, len: nat)
    requires len <= 16
    ensures |Ordered(lengths, len)| <= |lengths|
  {
    if lengths == [] {
      NoneOrdered(len);
    } else {
      UsedBound(lengths[..|lengths| - 1], len);
      OrderedGrows(lengths, len);
    }
  }

  lemma {:induction false} NoneOrdered(len: nat)
    ensures Ordered([], len) == []
  {
    if len > 1 {
      NoneOrdered(len - 1);
    }
  }

  lemma {:induction false} OrderedGrows(lengths: seq<u8>, len: nat)
    requires lengths != []
    ensures var k := |lengths| - 1;
            |Ordered(lengths, len)| == |Ordered(lengths[..k], len)| + if 1 <= lengths[k] < len then 1 else 0
  {
    if len > 1 {
      OrderedGrows(lengths, len - 1);
    }
  }

  /** The fixed code lengths always describe a code, and a complete one for literals. */
  lemma FixedTreesBuild()
    ensures Buildable(FixedLit()) && Buildable(FixedDist())
    ensures Kraft(FixedLit()) == Pow2(15)
  {
    hide Kraft, Pow2, Ordered, Repeat;
    Powers();
    Pow2Add(8, 7);
    assert Kraft([]) == 0 by {
      EmptySum();
    }
    assert [] + Repeat(8, 144) == Repeat(8, 144) && [] + Repeat(5, 32) == Repeat(5, 32);
    KraftAppend([], 8, 144);
    KraftAppend(Repeat(8, 144), 9, 112);
    KraftAppend(Repeat(8, 144) + Repeat(9, 112), 7, 24);
    KraftAppend(Repeat(8, 144) + Repeat(9, 112) + Repeat(7, 24), 8, 8);
    KraftAppend([], 5, 32);
    UsedBound(FixedLit(), 16);
    UsedBound(FixedDist(), 16);
  }

  lemma EmptySum()
    ensures Kraft([]) == 0
  {
  }
}
