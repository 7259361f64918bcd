/** The bit reader: bits are taken least significant first from the concatenation of the image data spans. */
module PngBits {
  import opened Bits
  import opened Wrappers

  type bit = b: int | 0 <= b < 2

  /** The bytes the spans select, in order. */
  function Gather(png: seq<u8>, spans: seq<(nat, nat)>): seq<u8>
    requires SpansFit(png, spans)
  {
    if spans == [] then [] else png[spans[0].0..spans[0].0 + spans[0].1] + Gather(png, spans[1..])
  }

  predicate SpansFit(png: seq<u8>, spans: seq<(nat, nat)>) {
    forall i :: 0 <= i < |spans| ==> spans[i].0 + spans[i].1 <= |png|
  }

  lemma {:induction false} GatherSkips(png: seq<u8>, spans: seq<(nat, nat)>, off: nat)
    requires SpansFit(png, spans) && spans != []
    ensures off < spans[0].1 ==>
              spans[0].0 + off < |png| && off < |Gather(png, spans)| && Gather(png, spans)[off] == png[spans[0].0 + off]
    ensures spans[0].1 <= off < |Gather(png, spans)| ==>
              Gather(png, spans)[off] == Gather(png, spans[1..])[off - spans[0].1]
    ensures |Gather(png, spans)| == spans[0].1 + |Gather(png, spans[1..])|
  {
  }

  /** The bits of a byte string: bit i of byte k is at position 8 * k + i. */
  function BitsOf(data: seq<u8>): (r: seq<bit>)
    ensures |r| == 8 * |data|
  {
    seq(8 * |data|, i requires 0 <= i < 8 * |data| => data[i / 8] / Pow2(i % 8) % 2)
  }

  /** The number a bit string denotes, least significant bit first. */
  function Number(bits: seq<bit>): (r: nat)
    ensures r < Pow2(|bits|)
  {
    if bits == [] then 0 else bits[0] + 2 * Number(bits[1..])
  }

  lemma {:induction false} NumberAppend(a: seq<bit>, b: seq<bit>)
    ensures Number(a + b) == Number(a) + Number(b) * Pow2(|a|)
  {
    hide Pow2;
    if a == [] {
      PowZero();
      assert a + b == b;
    } else {
      NumberAppend(a[1..], b);
      assert (a + b)[1..] == a[1..] + b;
      PowStep(|a| - 1);
      MulTwice(Number(b), Pow2(|a| - 1));
    }
  }

  /** The eight bits of a byte denote the byte. */
  lemma ByteNumber(data: seq<u8>, k: nat)
    requires k < |data|
    ensures Number(BitsOf(data)[8 * k..8 * k + 8]) == data[k]
  {
    ByteTail(data, k, 0);
    assert Pow2(0) == 1;
  }

  lemma {:induction false} ByteTail(data: seq<u8>, k: nat, i: nat)
    requires k < |data| && i <= 8
    ensures Number(BitsOf(data)[8 * k + i..8 * k + 8]) == data[k] / Pow2(i)
    decreases 8 - i
  {
    hide BitsOf;
    var b := data[k];
    assert Pow2(8) == 256;
    if i < 8 {
      ByteTail(data, k, i + 1);
      var rest := BitsOf(data)[8 * k + i..8 * k + 8];
      assert rest[1..] == BitsOf(data)[8 * k + (i + 1)..8 * k + 8];
      BitAt(data, k, i);
      DivTwice(b, Pow2(i));
    }
  }

  lemma BitAt(data: seq<u8>, k: nat, i: nat)
    requires k < |data| && i < 8
    ensures BitsOf(data)[8 * k + i] == data[k] / Pow2(i) % 2
  {
    hide Pow2;
    DivModUnique(8 * k + i, 8, k, i);
    BitIs(data, 8 * k + i);
  }

  lemma BitIs(data: seq<u8>, j: nat)
    requires j < 8 * |data|
    ensures BitsOf(data)[j] == data[j / 8] / Pow2(j % 8) % 2
  {
    hide Pow2;
  }

  lemma DivTwice(b: nat, p: nat)
    requires p > 0
    ensures b / (2 * p) == b / p / 2
  {
    var q, r := b / p, b % p;
    assert b == p * q + r;
    assert b == (2 * p) * (q / 2) + (p * (q % 2) + r) by {
      assert q == 2 * (q / 2) + q % 2;
      assert p * q == p * (2 * (q / 2)) + p * (q % 2);
      assert p * (2 * (q / 2)) == (2 * p) * (q / 2);
    }
    assert 0 <= p * (q % 2) <= p;
    DivModUnique(b, 2 * p, q / 2, p * (q % 2) + r);
  }

  lemma SplitNumber(x: nat, low: nat, high: nat, p: nat)
    requires low < p && x == low + high * p
    ensures x % p == low && x / p == high
  {
    assert high * p == p * high;
    DivModUnique(x, p, high, low);
  }

  /** Taking n bits off a number, as a mask and a shift do. */
  lemma TakeBits(bits: seq<bit>, n: nat)
    requires n <= |bits|
    ensures And(Number(bits), Pow2(n) - 1) == Number(bits[..n])
    ensures Number(bits) / Pow2(n) == Number(bits[n..])
  {
    hide Number, And, Pow2;
    AndMask(Number(bits), n);
    NumberAppend(bits[..n], bits[n..]);
    assert bits[..n] + bits[n..] == bits;
    SplitNumber(Number(bits), Number(bits[..n]), Number(bits[n..]), Pow2(n));
  }

  /** Putting a byte above the bits already held, as a shift and an or do. */
  lemma PutByte(bits: seq<bit>, data: seq<u8>, k: nat)
    requires k < |data|
    ensures Or(Number(bits), data[k] * Pow2(|bits|)) == Number(bits + BitsOf(data)[8 * k..8 * k + 8])
  {
    hide Number, Or, Pow2, BitsOf;
    ByteNumber(data, k);
    OrDisjoint(Number(bits), data[k], |bits|);
    NumberAppend(bits, BitsOf(data)[8 * k..8 * k + 8]);
  }

  class BitReader {
    const png: seq<u8>
    const spans: seq<(nat, nat)>
    const idatLen: nat
    var pos: nat
    var bitbuf: u32
    var bitcnt: nat

    ghost predicate Ready() {
      SpansFit(png, spans) && idatLen == |Gather(png, spans)|
    }

    /** Between operations fewer than eight bits are buffered, and they are the bits just before `pos`. */
    ghost predicate Valid()
      reads `pos, `bitbuf, `bitcnt
    {
      Ready() && bitcnt < 8 && Buffered()
    }

    ghost predicate Buffered()
      requires Ready()
      reads `pos, `bitbuf, `bitcnt
    {
      && pos <= idatLen && bitcnt <= 8 * pos
      && bitbuf == Number(Source()[8 * pos - bitcnt..8 * pos])
    }

    ghost function Data(): (r: seq<u8>)
      requires Ready()
      ensures |r| == idatLen
    {
      Gather(png, spans)
    }

    ghost function Source(): (r: seq<bit>)
      requires Ready()
      ensures |r| == 8 * idatLen
    {
      BitsOf(Data())
    }

    /** The position of the next bit. */
    ghost function At(): (at: nat)
      requires Valid()
      reads `pos, `bitbuf, `bitcnt
      ensures at <= 8 * idatLen
    {
      8 * pos - bitcnt
    }

    constructor (png: seq<u8>, spans: seq<(nat, nat)>, idatLen: nat)
      requires SpansFit(png, spans) && idatLen == |Gather(png, spans)|
      ensures Valid() && At() == 0 && Data() == Gather(png, spans)
    {
      this.png := png;
      this.spans := spans;
      this.idatLen := idatLen;
      pos := 0;
      bitbuf := 0;
      bitcnt := 0;
    }

    method NextByte() returns (r: Result<u8>)
      requires Ready()
      modifies `pos
      ensures r == if old(pos) < idatLen then Ok(Data()[old(pos)]) else Err
      ensures pos == if old(pos) < idatLen then old(pos) + 1 else old(pos)
    {
      if pos >= idatLen {
        return Err;
      }
      var off := pos;
      pos := pos + 1;
      for i := 0 to |spans|
        invariant pos == old(pos) + 1 && 0 <= off < |Gather(png, spans[i..])|
        invariant Data()[old(pos)] == Gather(png, spans[i..])[off]
      {
        var start, n := spans[i].0, spans[i].1;
        GatherSkips(png, spans[i..], off);
        assert spans[i..][1..] == spans[i + 1..];
        if off < n {
          return Ok(png[start + off]);
        }
        off := off - n;
      }
      return Err;
    }

    /** The next n bits as a number, when there are that many; more than 16 are never given. */
    method GetBits(n: nat) returns (r: Result<u32>)
      requires Valid()
      modifies `pos, `bitbuf, `bitcnt
      ensures r.Ok? <==> n == 0 || (n <= 16 && old(At()) + n <= |Source()|)
      ensures r.Ok? ==> Valid() && At() == old(At()) + n
      ensures r.Ok? ==> r.value == Number(Source()[old(At())..old(At()) + n])
    {
      hide Number, And, Or, Pow2, BitsOf, Gather, SpansFit;
      if n == 0 {
        NumberEmpty(Source(), At());
        return Ok(0);
      }
      if n > 16 {
        return Err;
      }
      ghost var at := At();
      ghost var bits := Source();
      while bitcnt < n
        invariant Buffered() && 8 * pos - bitcnt == at && bitcnt < n + 8
        decreases n - bitcnt
      {
        ghost var k := pos;
        var b := NextByte();
        if b.Err? {
          return Err;
        }
        NextByteFits(Data(), at, k);
        bitbuf := Or(bitbuf, b.value * Pow2(bitcnt));
        bitcnt := bitcnt + 8;
      }
      TakeFits(bits, at, n, 8 * pos);
      var val := And(bitbuf, Pow2(n) - 1);
      bitbuf := bitbuf / Pow2(n);
      bitcnt := bitcnt - n;
      return Ok(val);
    }

    /** Dropping the buffer moves to the next byte boundary: only the rest of the current byte is lost. */
    method AlignByte()
      requires Valid()
      modifies `bitbuf, `bitcnt
      ensures Valid() && At() == NextBoundary(old(At())) && At() == 8 * pos
    {
      hide Number, BitsOf, Gather, SpansFit;
      BoundaryAfter(pos, bitcnt);
      NumberEmpty(Source(), 8 * pos);
      bitbuf := 0;
      bitcnt := 0;
    }

    method ReadU16Le() returns (r: Result<u16>)
      requires Valid()
      modifies `pos, `bitbuf, `bitcnt
      ensures r.Ok? <==> NextBoundary(old(At())) + 16 <= |Source()|
      ensures r.Ok? ==> Valid() && bitcnt == 0 && At() == NextBoundary(old(At())) + 16
      ensures r.Ok? ==> r.value == Number(Source()[NextBoundary(old(At()))..NextBoundary(old(At())) + 16])
    {
      hide Number, Or, Pow2, BitsOf, Gather, SpansFit;
      AlignByte();
      ghost var k := pos;
      var lo := NextByte();
      if lo.Err? {
        return Err;
      }
      var hi := NextByte();
      if hi.Err? {
        return Err;
      }
      ghost var bits := Source();
      TwoBytes(Data(), k);
      NumberEmpty(bits, 8 * pos);
      return Ok(Or(lo.value, hi.value as int * 0x100));
    }
  }

  lemma NextByteFits(data: seq<u8>, at: nat, k: nat)
    requires k < |data| && at <= 8 * k < at + 16
    ensures Or(Number(BitsOf(data)[at..8 * k]), data[k] * Pow2(8 * k - at))
         == Number(BitsOf(data)[at..8 * k + 8]) < 0x1_0000_0000
  {
    hide Number, Or, Pow2, BitsOf;
    var bits := BitsOf(data);
    PutByte(bits[at..8 * k], data, k);
    assert bits[at..8 * k] + bits[8 * k..8 * k + 8] == bits[at..8 * k + 8];
    BufferFits(bits[at..8 * k + 8]);
  }

  lemma TakeFits(bits: seq<bit>, at: nat, n: nat, end: nat)
    requires at + n <= end <= |bits| && end - at < 32
    ensures And(Number(bits[at..end]), Pow2(n) - 1) == Number(bits[at..at + n]) < 0x1_0000_0000
    ensures Number(bits[at..end]) / Pow2(n) == Number(bits[at + n..end]) < 0x1_0000_0000
  {
    hide Number, And, Pow2;
    TakeBits(bits[at..end], n);
    assert bits[at..end][..n] == bits[at..at + n];
    assert bits[at..end][n..] == bits[at + n..end];
    BufferFits(bits[at..at + n]);
    BufferFits(bits[at + n..end]);
  }

  lemma TwoBytes(data: seq<u8>, k: nat)
    requires k + 1 < |data|
    ensures Or(data[k], data[k + 1] as int * 0x100) == Number(BitsOf(data)[8 * k..8 * k + 16]) < 0x1_0000
  {
    hide Number, Or, BitsOf;
    var bits := BitsOf(data);
    ByteNumber(data, k);
    ByteNumber(data, k + 1);
    NumberAppend(bits[8 * k..8 * k + 8], bits[8 * k + 8..8 * k + 16]);
    assert bits[8 * k..8 * k + 8] + bits[8 * (k + 1)..8 * (k + 1) + 8] == bits[8 * k..8 * k + 16];
    assert Pow2(8) == 256;
    OrDisjoint(data[k], data[k + 1], 8);
  }

  lemma NumberEmpty(bits: seq<bit>, at: nat)
    requires at <= |bits|
    ensures Number(bits[at..at]) == 0
  {
  }

  lemma BoundaryAfter(pos: nat, held: nat)
    requires held < 8 && held <= 8 * pos
    ensures NextBoundary(8 * pos - held) == 8 * pos
  {
    assert 8 * pos - held + 7 == 8 * pos + (7 - held);
  }

  function NextBoundary(at: nat): nat {
    (at + 7) / 8 * 8
  }

  lemma BufferFits(bits: seq<bit>)
    requires |bits| < 32
    ensures Number(bits) < 0x1_0000_0000
  {
    Pow2Monotone(|bits|, 32);
    Pow2At32();
  }
}
