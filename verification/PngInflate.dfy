/** The inflater: blocks are read from the bit reader and fed byte by byte to the sink. */
module PngInflate {
  import opened Bits
  import opened Wrappers
  import opened PngBits
  import opened PngHuffman
  import opened PngDeflate
  import opened PngScale
  import opened PngSink

  /** What the sink does with a result: it accepts it, or the inflater fails. */
  ghost predicate Delivered(r: Result<Output>, p: Picture) {
    r.Ok? && Accepts(p, r.value.out)
  }

  lemma Undelivered(r: Result<Output>, p: Picture, fed: seq<u8>)
    requires r.Ok? ==> fed <= r.value.out
    requires p.stride > 0 && !Accepts(p, fed)
    ensures !Delivered(r, p)
  {
    if r.Ok? && Accepts(p, r.value.out) {
      AcceptsPrefix(p, fed, r.value.out);
    }
  }

  lemma StoredByte(bits: seq<bit>, data: seq<u8>, at: nat, n: nat)
    requires bits == BitsOf(data) && at % 8 == 0 && at + 8 * n + 8 <= |bits|
    ensures Bytes(bits, at, n + 1) == Bytes(bits, at, n) + [data[at / 8 + n]]
  {
    hide BitsOf, Number;
    ByteNumber(data, at / 8 + n);
  }

  lemma {:induction false} BytesPrefix(bits: seq<bit>, at: nat, k: nat, n: nat)
    requires k <= n && at + 8 * n <= |bits|
    ensures Bytes(bits, at, k) <= Bytes(bits, at, n)
  {
    if k < n {
      BytesPrefix(bits, at, k, n - 1);
    }
  }

  /** The complement test of the code is a sum test. */
  lemma {:induction false} Complement(x: nat, k: nat)
    requires x < Pow2(k)
    ensures Xor(x, Pow2(k) - 1) == Pow2(k) - 1 - x
  {
    if k > 0 && x > 0 {
      Complement(x / 2, k - 1);
      var m := Pow2(k) - 1;
      assert m % 2 == 1 && m / 2 == Pow2(k - 1) - 1;
      assert Xor(x, m) == (if x % 2 != m % 2 then 1 else 0) + 2 * Xor(x / 2, m / 2);
    }
  }

  lemma Complement16(x: u16)
    ensures Xor(x, 0xFFFF) == 0xFFFF - x
  {
    Pow2Add(8, 8);
    assert Pow2(8) == 256;
    Complement(x, 16);
  }

  method InflateStored(br: BitReader, sink: Sink) returns (ok: bool)
    requires br.Valid() && sink.Valid()
    modifies br, sink, sink.win, sink.scan, sink.prev, sink.screen
    ensures var r := Stored(br.Source(), old(br.At()), old(sink.fed));
            && (ok <==> Delivered(r, sink.pic))
            && (ok ==> br.Valid() && sink.Valid() && br.At() == r.value.at && sink.fed == r.value.out)
  {
    hide Number, BitsOf, Gather, Bytes, Accepts, Sink.Valid;
    ghost var bits, at := br.Source(), br.At();
    var len := br.ReadU16Le();
    if len.Err? {
      return false;
    }
    var nlen := br.ReadU16Le();
    if nlen.Err? {
      return false;
    }
    AlignedBoundary(at);
    Complement16(len.value);
    if Xor(len.value, 0xFFFF) != nlen.value {
      return false;
    }
    ok := FeedBytes(br, sink, len.value);
  }

  lemma AlignedBoundary(at: nat)
    ensures NextBoundary(NextBoundary(at) + 16) == NextBoundary(at) + 16
    ensures NextBoundary(at) >= at
  {
  }

  /** The bytes of a stored block, unchanged. */
  method FeedBytes(br: BitReader, sink: Sink, len: nat) returns (ok: bool)
    requires br.Valid() && sink.Valid() && br.bitcnt == 0
    modifies br, sink, sink.win, sink.scan, sink.prev, sink.screen
    ensures var a := old(br.At());
            && (ok <==> a + 8 * len <= |br.Source()| && Accepts(sink.pic, old(sink.fed) + Bytes(br.Source(), a, len)))
            && (ok ==> br.Valid() && sink.Valid() && br.At() == a + 8 * len
                       && sink.fed == old(sink.fed) + Bytes(br.Source(), a, len))
  {
    hide Number, BitsOf, Gather, Bytes, Accepts, Sink.Valid;
    ghost var fed0, bits, a := sink.fed, br.Source(), br.At();
    NoBytes(bits, a);
    sink.Strided();
    for i := 0 to len
      invariant br.Valid() && sink.Valid() && br.bitcnt == 0 && br.At() == a + 8 * i <= |bits|
      invariant sink.fed == fed0 + Bytes(bits, a, i)
    {
      var b := br.NextByte();
      if b.Err? {
        return false;
      }
      NoNumber(bits, 8 * br.pos);
      StoredByte(bits, br.Data(), a, i);
      assert fed0 + Bytes(bits, a, i) + [b.value] == fed0 + Bytes(bits, a, i + 1);
      ok := sink.Emit(b.value);
      if !ok {
        if a + 8 * len <= |bits| && Accepts(sink.pic, fed0 + Bytes(bits, a, len)) {
          BytesPrefix(bits, a, i + 1, len);
          AcceptsPrefix(sink.pic, fed0 + Bytes(bits, a, i + 1), fed0 + Bytes(bits, a, len));
        }
        return;
      }
    }
    sink.Accepted();
    return true;
  }

  lemma NoBytes(bits: seq<bit>, at: nat)
    requires at <= |bits|
    ensures Bytes(bits, at, 0) == []
  {
  }

  /** A match is copied byte by byte, so that it may read what it has just written. */
  method CopyMatch(sink: Sink, distance: nat, length: nat) returns (ok: bool)
    requires sink.Valid() && distance <= WIN_SIZE && length > 0
    modifies sink, sink.win, sink.scan, sink.prev, sink.screen
    ensures ok <==> 1 <= distance <= |old(sink.fed)| && Accepts(sink.pic, Copy(old(sink.fed), distance, length))
    ensures ok ==> sink.Valid() && sink.fed == Copy(old(sink.fed), distance, length)
  {
    hide Accepts, Sink.Valid;
    sink.Strided();
    ghost var fed0 := sink.fed;
    for i := 0 to length
      invariant sink.Valid()
      invariant i > 0 ==> 1 <= distance <= |fed0|
      invariant 1 <= distance <= |fed0| ==> sink.fed == Copy(fed0, distance, i)
      invariant i == 0 ==> sink.fed == fed0
    {
      var b := sink.CopyByte(distance);
      if b.Err? {
        return false;
      }
      ok := sink.Emit(b.value);
      if !ok {
        CopyPrefix(fed0, distance, i + 1, length);
        if Accepts(sink.pic, Copy(fed0, distance, length)) {
          AcceptsPrefix(sink.pic, Copy(fed0, distance, i + 1), Copy(fed0, distance, length));
        }
        return;
      }
    }
    sink.Accepted();
    return true;
  }

  /** The length and distance of a match after its length symbol. */
  method ReadMatch(br: BitReader, dist: Huffman, ghost dl: seq<u8>, i: nat) returns (r: Result<(nat, nat)>)
    requires br.Valid() && dist.Built(dl) && i < 29
    modifies br
    ensures r.Ok? <==> Match(dl, br.Source(), old(br.At()), i).Ok?
    ensures var m := Match(dl, br.Source(), old(br.At()), i);
            r.Ok? ==> r.value == (m.value.len, m.value.dist) && br.Valid() && br.At() == m.value.at
    ensures r.Ok? ==> r.value.1 <= WIN_SIZE && r.value.0 > 0
  {
    hide Number, BitsOf, Gather, LenBase, LenExtra, DistBase, DistExtra, Huffman.Built, Spells, BitReader.Buffered;
    TableLimits(i);
    ghost var at, bits := br.At(), br.Source();
    var lx := br.GetBits(LenExtra(i));
    NoNumber(bits, at);
    if lx.Err? {
      return Err;
    }
    var ds := dist.Decode(br, dl);
    if ds.Err? {
      return Err;
    }
    NextIs(dl, bits, at + LenExtra(i), ds.value);
    if ds.value >= 30 {
      return Err;
    }
    ghost var b := br.At();
    NoNumber(bits, b);
    DistLimits(ds.value);
    var dx := br.GetBits(DistExtra(ds.value));
    if dx.Err? {
      return Err;
    }
    DistanceInWindow(ds.value, bits[b..b + DistExtra(ds.value)]);
    return Ok((LenBase(i) + lx.value, DistBase(ds.value) + dx.value));
  }

  lemma NoNumber(bits: seq<bit>, at: nat)
    requires at <= |bits|
    ensures Number(bits[at..at]) == 0
  {
  }

  lemma TableLimits(i: nat)
    requires i < 29
    ensures LenExtra(i) <= 16 && LenBase(i) >= 3
  {
  }

  lemma DistLimits(i: nat)
    requires i < 30
    ensures DistExtra(i) <= 16
  {
  }

  method InflateHuffman(br: BitReader, sink: Sink, lit: Huffman, dist: Huffman, ghost ll: seq<u8>, ghost dl: seq<u8>)
    returns (ok: bool)
    requires br.Valid() && sink.Valid() && lit.Built(ll) && dist.Built(dl)
    modifies br, sink, sink.win, sink.scan, sink.prev, sink.screen
    ensures var r := Block(ll, dl, br.Source(), old(br.At()), old(sink.fed));
            && (ok <==> Delivered(r, sink.pic))
            && (ok ==> br.Valid() && sink.Valid() && br.At() == r.value.at && sink.fed == r.value.out)
  {
    hide Block, Match, Accepts, Sink.Valid, Huffman.Built, Spells, Number, BitsOf, Gather, BitReader.Buffered;
    ghost var r := Block(ll, dl, br.Source(), br.At(), sink.fed);
    ghost var bits := br.Source();
    sink.Strided();
    while true
      invariant br.Valid() && sink.Valid() && lit.Built(ll) && dist.Built(dl)
      invariant Block(ll, dl, bits, br.At(), sink.fed) == r
      decreases |bits| - br.At()
    {
      ghost var at, fed := br.At(), sink.fed;
      var sym := lit.Decode(br, ll);
      if sym.Err? {
        BlockEnds(ll, dl, bits, at, fed);
        return false;
      }
      BlockStep(ll, dl, bits, at, fed, sym.value);
      if sym.value < 256 {
        ok := sink.Emit(sym.value);
        if !ok {
          Undelivered(r, sink.pic, fed + [sym.value]);
          return;
        }
      } else if sym.value == 256 {
        sink.Accepted();
        return true;
      } else if sym.value <= 285 {
        var m := ReadMatch(br, dist, dl, sym.value - 257);
        if m.Err? {
          return false;
        }
        ok := CopyMatch(sink, m.value.1, m.value.0);
        if !ok {
          if 1 <= m.value.1 <= |fed| {
            Undelivered(r, sink.pic, Copy(fed, m.value.1, m.value.0));
          }
          return;
        }
      } else {
        return false;
      }
    }
  }

  // The trees.

  method BuildFixedTrees(lit: Huffman, dist: Huffman) returns (ok: bool)
    requires lit.Valid() && dist.Valid() && Separate(lit, dist)
    modifies lit.count, lit.symbol, dist.count, dist.symbol
    ensures ok && lit.Built(FixedLit()) && dist.Built(FixedDist())
  {
    hide Buildable, FixedLit, Used, WithLength, Huffman.Built;
    FixedTreesBuild();
    var litLen := FixedLengths();
    ok := lit.Construct(litLen);
    if !ok {
      return;
    }
    ok := dist.Construct(seq(32, _ => 5));
  }

  predicate Separate(a: Huffman, b: Huffman) {
    a.count != b.count && a.count != b.symbol && a.symbol != b.count && a.symbol != b.symbol
  }

  method FixedLengths() returns (lengths: seq<u8>)
    ensures lengths == FixedLit()
  {
    var litLen := new u8[288](_ => 0);
    for i := 0 to 144
      invariant litLen[..i] == FixedLit()[..i]
    {
      litLen[i] := 8;
    }
    for i := 144 to 256
      invariant litLen[..i] == FixedLit()[..i]
    {
      litLen[i] := 9;
    }
    for i := 256 to 280
      invariant litLen[..i] == FixedLit()[..i]
    {
      litLen[i] := 7;
    }
    for i := 280 to 288
      invariant litLen[..i] == FixedLit()[..i]
    {
      litLen[i] := 8;
    }
    return litLen[..];
  }

  /** The three-bit lengths of the code length code, in their scrambled order. */
  method ReadClen(br: BitReader, hclen: nat) returns (r: Result<seq<u8>>)
    requires br.Valid() && hclen <= 19
    modifies br
    ensures r.Ok? <==> old(br.At()) + 3 * hclen <= |br.Source()|
    ensures r.Ok? ==> r.value == ClenLengths(br.Source(), old(br.At()), hclen)
    ensures r.Ok? ==> br.Valid() && br.At() == old(br.At()) + 3 * hclen
  {
    hide Number, BitsOf, Gather, ClenOrder;
    ghost var bits, at := br.Source(), br.At();
    var clen := new u8[19](_ => 0);
    assert clen[..] == Repeat(0, 19);
    for i := 0 to hclen
      invariant br.Valid() && br.At() == at + 3 * i <= |bits|
      invariant clen[..] == ClenLengths(bits, at, i)
    {
      var b := br.GetBits(3);
      if b.Err? {
        return Err;
      }
      ThreeBits(bits, at + 3 * i);
      clen[ClenOrder(i)] := b.value;
    }
    return Ok(clen[..]);
  }

  lemma ThreeBits(bits: seq<bit>, at: nat)
    requires at + 3 <= |bits|
    ensures Number(bits[at..at + 3]) < 8
  {
    assert Pow2(3) == 8;
  }

  method BuildDynamicTrees(br: BitReader, lit: Huffman, dist: Huffman)
    returns (ok: bool, ghost t: Result<Trees>)
    requires br.Valid() && lit.Valid() && dist.Valid() && Separate(lit, dist)
    modifies br, lit.count, lit.symbol, dist.count, dist.symbol
    ensures t == Dynamic(br.Source(), old(br.At())) && (ok <==> t.Ok?)
    ensures ok ==> br.Valid() && br.At() == t.value.at && lit.Built(t.value.lit) && dist.Built(t.value.dist)
  {
    hide Number, BitsOf, Gather, Buildable, Used, WithLength, CodeLengths, Huffman.Built;
    t := Dynamic(br.Source(), br.At());
    ok := false;
    var a := br.GetBits(5);
    if a.Err? {
      return;
    }
    var b := br.GetBits(5);
    if b.Err? {
      return;
    }
    var c := br.GetBits(4);
    if c.Err? {
      return;
    }
    var hlit, hdist, hclen := a.value + 257, b.value + 1, c.value + 4;
    if hlit > 286 || hdist > 32 || hclen > 19 {
      return;
    }
    var lengths := ReadCodeLengths(br, hclen, hlit + hdist);
    if lengths.Err? {
      return;
    }
    var built := lit.Construct(lengths.value[..hlit]);
    if !built {
      return;
    }
    assert lengths.value[hlit..hlit + hdist] == lengths.value[hlit..];
    ok := dist.Construct(lengths.value[hlit..hlit + hdist]);
  }

  method ReadCodeLengths(br: BitReader, hclen: nat, total: nat) returns (r: Result<seq<u8>>)
    requires br.Valid() && hclen <= 19 && total <= 318
    modifies br
    ensures var e := CodeLengths(br.Source(), old(br.At()), hclen, total);
            && (r.Ok? <==> e.Ok?)
            && (r.Ok? ==> r.value == e.value.lengths && br.Valid() && br.At() == e.value.at)
  {
    hide Number, BitsOf, Gather, Buildable, ClenLengths, Expand, Huffman.Built;
    var clen := ReadClen(br, hclen);
    if clen.Err? {
      return Err;
    }
    var clenTree := new Huffman();
    var built := clenTree.Construct(clen.value);
    if !built {
      return Err;
    }
    r := ReadLengths(br, clenTree, clen.value, total);
  }

  /** Run-length expansion into a buffer of 318 entries, which is never overrun. */
  method ReadLengths(br: BitReader, tree: Huffman, ghost clen: seq<u8>, total: nat) returns (r: Result<seq<u8>>)
    requires br.Valid() && tree.Built(clen) && |clen| == 19 && total <= 318
    modifies br
    ensures var e := Expand(clen, br.Source(), old(br.At()), total, []);
            && (r.Ok? <==> e.Ok?)
            && (r.Ok? ==> r.value == e.value.lengths && br.Valid() && br.At() == e.value.at)
  {
    hide Number, BitsOf, Gather, Expand, Spells, Huffman.Built, BitReader.Buffered;
    ghost var bits, at := br.Source(), br.At();
    var lengths := new u8[318](_ => 0);
    var n: nat := 0;
    assert lengths[..n] == [];
    while n < total
      invariant br.Valid() && tree.Built(clen) && n <= total
      invariant Expand(clen, bits, br.At(), total, lengths[..n]) == Expand(clen, bits, at, total, [])
      decreases |bits| - br.At()
    {
      ghost var here, acc := br.At(), lengths[..n];
      var sym := tree.Decode(br, clen);
      if sym.Err? {
        ExpandEnds(clen, bits, here, total, acc);
        return Err;
      }
      ExpandStep(clen, bits, here, total, acc, sym.value);
      if sym.value < 16 {
        lengths[n] := sym.value;
        n := n + 1;
        assert lengths[..n] == acc + [sym.value];
      } else {
        if sym.value == 16 && n == 0 {
          return Err;
        }
        var val := if sym.value == 16 then lengths[n - 1] else 0;
        var extra := br.GetBits(RunBits(sym.value));
        if extra.Err? {
          return Err;
        }
        var reps := RunBase(sym.value) + extra.value;
        if n + reps > total {
          return Err;
        }
        n := FillRun(lengths, n, val, reps);
      }
    }
    ExpandDone(clen, bits, br.At(), total, lengths[..n]);
    return Ok(lengths[..total]);
  }

  method FillRun(lengths: array<u8>, start: nat, val: u8, reps: nat) returns (n: nat)
    requires start + reps <= lengths.Length
    modifies lengths
    ensures n == start + reps && lengths[..n] == old(lengths[..start]) + Repeat(val, reps)
  {
    n := start;
    for i := 0 to reps
      invariant n == start + i
      invariant lengths[..n] == old(lengths[..start]) + Repeat(val, i)
    {
      lengths[n] := val;
      n := n + 1;
    }
  }

  lemma ExpandDone(clen: seq<u8>, bits: seq<bit>, at: nat, total: nat, acc: seq<u8>)
    requires |acc| == total && |clen| == 19 && at <= |bits|
    ensures Expand(clen, bits, at, total, acc) == Ok(Lengths(acc, at))
  {
  }

  lemma ExpandEnds(clen: seq<u8>, bits: seq<bit>, at: nat, total: nat, acc: seq<u8>)
    requires |acc| < total && |clen| == 19 && at <= |bits|
    requires !exists s :: Spells(clen, s, bits, at)
    ensures Expand(clen, bits, at, total, acc).Err?
  {
  }

  lemma ExpandStep(clen: seq<u8>, bits: seq<bit>, at: nat, total: nat, acc: seq<u8>, sym: nat)
    requires |acc| < total && |clen| == 19 && at <= |bits|
    requires Spells(clen, sym, bits, at)
    ensures sym < 19 && clen[sym] > 0 && at + clen[sym] <= |bits|
    ensures var a := at + clen[sym];
            Expand(clen, bits, at, total, acc)
            == if sym < 16 then Expand(clen, bits, a, total, acc + [sym])
               else if (sym == 16 && acc == []) || a + RunBits(sym) > |bits| then Err else
               var b := a + RunBits(sym);
               var reps := RunBase(sym) + Number(bits[a..b]);
               if |acc| + reps > total then Err
               else Expand(clen, bits, b, total, acc + Repeat(if sym == 16 then acc[|acc| - 1] else 0, reps))
  {
    hide Spells, Number;
    NextIs(clen, bits, at, sym);
  }

  // The whole stream.

  method InflateDeflate(br: BitReader, sink: Sink) returns (ok: bool)
    requires br.Valid() && sink.Valid()
    modifies br, sink, sink.win, sink.scan, sink.prev, sink.screen
    ensures var r := Inflate(br.Source(), old(br.At()), old(sink.fed));
            && (ok <==> Delivered(r, sink.pic))
            && (ok ==> br.Valid() && sink.Valid() && br.At() == r.value.at && sink.fed == r.value.out)
  {
    hide Inflate, BlockOf, Number, BitsOf, Gather, Accepts, Sink.Valid;
    ghost var bits := br.Source();
    ghost var r := Inflate(bits, br.At(), sink.fed);
    sink.Strided();
    while true
      invariant br.Valid() && sink.Valid()
      invariant Inflate(bits, br.At(), sink.fed) == r
      decreases |bits| - br.At()
    {
      ghost var at, fed := br.At(), sink.fed;
      InflateStep(bits, at, fed);
      var bfinal := br.GetBits(1);
      if bfinal.Err? {
        return false;
      }
      var btype := br.GetBits(2);
      if btype.Err? {
        return false;
      }
      ok := InflateBlock(br, sink, btype.value);
      if !ok {
        ghost var b := BlockOf(btype.value, bits, at + 3, fed);
        if b.Ok? {
          Undelivered(r, sink.pic, b.value.out);
        }
        return;
      }
      if bfinal.value == 1 {
        sink.Accepted();
        return true;
      }
    }
  }

  lemma InflateStep(bits: seq<bit>, at: nat, out: seq<u8>)
    ensures Inflate(bits, at, out)
         == if at + 3 > |bits| then Err else
            var b := BlockOf(Number(bits[at + 1..at + 3]), bits, at + 3, out);
            if b.Err? then Err
            else if Number(bits[at..at + 1]) == 1 then b
            else Inflate(bits, b.value.at, b.value.out)
  {
    hide BlockOf, Number;
  }

  method InflateBlock(br: BitReader, sink: Sink, btype: nat) returns (ok: bool)
    requires br.Valid() && sink.Valid()
    modifies br, sink, sink.win, sink.scan, sink.prev, sink.screen
    ensures var r := BlockOf(btype, br.Source(), old(br.At()), old(sink.fed));
            && (ok <==> Delivered(r, sink.pic))
            && (ok ==> br.Valid() && sink.Valid() && br.At() == r.value.at && sink.fed == r.value.out)
  {
    hide Block, Stored, Dynamic, FixedLit, FixedDist, Number, BitsOf, Gather, Accepts, Sink.Valid, Huffman.Built;
    match btype {
      case 0 =>
        ok := InflateStored(br, sink);
      case 1 =>
        var lit := new Huffman();
        var dist := new Huffman();
        ok := BuildFixedTrees(lit, dist);
        if !ok {
          return;
        }
        ok := InflateHuffman(br, sink, lit, dist, FixedLit(), FixedDist());
      case 2 =>
        var lit := new Huffman();
        var dist := new Huffman();
        ghost var t;
        ok, t := BuildDynamicTrees(br, lit, dist);
        if !ok {
          return;
        }
        ok := InflateHuffman(br, sink, lit, dist, t.value.lit, t.value.dist);
      case _ =>
        return false;
    }
  }
}
