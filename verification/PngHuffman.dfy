/** Canonical Huffman codes (section 3.2.2 of RFC 1951): the tables the decoder builds and how it reads a symbol. */
module PngHuffman {
  import opened Bits
  import opened Wrappers
  import opened PngBits

  const MAX_SYMBOLS := 288

  /** The symbols whose code has len bits, in ascending order. */
  function WithLength(lengths: seq<u8>, len: nat): (r: seq<nat>)
    ensures |r| <= |lengths|
  {
    if lengths == [] then [] else
    var k := |lengths| - 1;
    WithLength(lengths[..k], len) + if lengths[k] == len then [k] else []
  }

  /** The symbols whose code has at least one and fewer than len bits, by length and then by symbol. */
  function Ordered(lengths: seq<u8>, len: nat): seq<nat> {
    if len <= 1 then [] else Ordered(lengths, len - 1) + WithLength(lengths, len - 1)
  }

  function Used(lengths: seq<u8>): seq<nat> {
    Ordered(lengths, 16)
  }

  /** The code of the first symbol with len bits. */
  function FirstCode(lengths: seq<u8>, len: nat): nat {
    if len <= 1 then 0 else 2 * (FirstCode(lengths, len - 1) + |WithLength(lengths, len - 1)|)
  }

  function Rank(lengths: seq<u8>, sym: nat): nat
    requires sym < |lengths|
  {
    |WithLength(lengths[..sym], lengths[sym])|
  }

  /** The canonical code of a symbol. */
  function Code(lengths: seq<u8>, sym: nat): nat
    requires sym < |lengths|
  {
    FirstCode(lengths, lengths[sym]) + Rank(lengths, sym)
  }

  /** The number a codeword denotes: its first bit is the most significant one. */
  function Big(bits: seq<bit>): nat {
    if bits == [] then 0 else 2 * Big(bits[..|bits| - 1]) + bits[|bits| - 1]
  }

  /** The bits at a position start with the codeword of a symbol. */
  predicate Spells(lengths: seq<u8>, sym: nat, bits: seq<bit>, at: nat) {
    && sym < |lengths| && lengths[sym] > 0
    && at + lengths[sym] <= |bits|
    && Big(bits[at..at + lengths[sym]]) == Code(lengths, sym)
  }

  /** The Kraft sum, in units of 2^-15. */
  function Kraft(lengths: seq<u8>): nat
    requires forall i :: 0 <= i < |lengths| ==> lengths[i] <= 15
  {
    if lengths == [] then 0 else
    var k := |lengths| - 1;
    Kraft(lengths[..k]) + if lengths[k] == 0 then 0 else Pow2(15 - lengths[k])
  }

  /** The length lists that describe a code. */
  predicate Buildable(lengths: seq<u8>) {
    && (forall i :: 0 <= i < |lengths| ==> lengths[i] <= 15)
    && Kraft(lengths) <= Pow2(15)
    && |Used(lengths)| <= MAX_SYMBOLS
  }

  // Symbols and ranks.

  lemma {:induction false} RankFinds(lengths: seq<u8>, sym: nat)
    requires sym < |lengths|
    ensures Rank(lengths, sym) < |WithLength(lengths, lengths[sym])|
    ensures WithLength(lengths, lengths[sym])[Rank(lengths, sym)] == sym
  {
    var k := |lengths| - 1;
    if sym < k {
      RankFinds(lengths[..k], sym);
      assert lengths[..k][..sym] == lengths[..sym];
    }
  }

  lemma {:induction false} MemberRank(lengths: seq<u8>, len: nat, i: nat)
    requires i < |WithLength(lengths, len)|
    ensures var s := WithLength(lengths, len)[i]; s < |lengths| && lengths[s] == len && Rank(lengths, s) == i
  {
    var k := |lengths| - 1;
    if i < |WithLength(lengths[..k], len)| {
      MemberRank(lengths[..k], len, i);
      var s := WithLength(lengths, len)[i];
      assert lengths[..k][..s] == lengths[..s];
    }
  }

  /** What the first symbols contribute comes first. */
  lemma {:induction false} WithLengthPrefix(lengths: seq<u8>, len: nat, n: nat)
    requires n <= |lengths|
    ensures WithLength(lengths[..n], len) <= WithLength(lengths, len)
  {
    if n < |lengths| {
      var k := |lengths| - 1;
      WithLengthPrefix(lengths[..k], len, n);
      assert lengths[..k][..n] == lengths[..n];
    } else {
      assert lengths[..n] == lengths;
    }
  }

  lemma {:induction false} OrderedPrefix(lengths: seq<u8>, a: nat, b: nat)
    requires a <= b
    ensures Ordered(lengths, a) <= Ordered(lengths, b)
  {
    if a < b {
      OrderedPrefix(lengths, a, b - 1);
    }
  }

  lemma OrderedStep(lengths: seq<u8>, len: nat)
    requires len >= 1
    ensures Ordered(lengths, len + 1) == Ordered(lengths, len) + WithLength(lengths, len)
    ensures |Ordered(lengths, len + 1)| == |Ordered(lengths, len)| + |WithLength(lengths, len)|
  {
  }

  lemma OrderedAt(lengths: seq<u8>, len: nat, i: nat)
    requires 1 <= len <= 15 && i < |WithLength(lengths, len)|
    ensures |Ordered(lengths, len)| + i < |Used(lengths)|
    ensures Used(lengths)[|Ordered(lengths, len)| + i] == WithLength(lengths, len)[i]
  {
    hide Ordered, WithLength;
    OrderedStep(lengths, len);
    OrderedPrefix(lengths, len + 1, 16);
  }

  // Codewords.

  lemma {:induction false} BigAppend(a: seq<bit>, b: seq<bit>)
    ensures Big(a) * Pow2(|b|) <= Big(a + b) < (Big(a) + 1) * Pow2(|b|)
  {
    hide Pow2;
    if b == [] {
      PowZero();
      assert a + b == a;
    } else {
      var k := |b| - 1;
      BigAppend(a, b[..k]);
      PowStep(k);
      assert (a + b)[..|a + b| - 1] == a + b[..k];
      assert Big(a + b) == 2 * Big(a + b[..k]) + b[k];
      MulTwice(Big(a), Pow2(k));
      MulTwice(Big(a) + 1, Pow2(k));
    }
  }

  lemma {:induction false} FirstCodeGrows(lengths: seq<u8>, a: nat, b: nat)
    requires 1 <= a < b
    ensures (FirstCode(lengths, a) + |WithLength(lengths, a)|) * Pow2(b - a) <= FirstCode(lengths, b)
  {
    hide FirstCode, WithLength, Pow2;
    var x := FirstCode(lengths, a) + |WithLength(lengths, a)|;
    FirstCodeStep(lengths, b - 1);
    PowStep(b - 1 - a);
    if b == a + 1 {
      PowZero();
    } else {
      FirstCodeGrows(lengths, a, b - 1);
      MulTwice(x, Pow2(b - 1 - a));
    }
  }

  lemma SpelledFirst(lengths: seq<u8>, s: nat, t: nat, bits: seq<bit>, at: nat)
    requires Spells(lengths, s, bits, at) && Spells(lengths, t, bits, at)
    ensures lengths[s] >= lengths[t]
  {
    hide Big, Code, FirstCode, WithLength, Pow2;
    var a, b := lengths[s], lengths[t];
    if a < b {
      var lo := bits[at..at + a];
      BigAppend(lo, bits[at + a..at + b]);
      assert lo + bits[at + a..at + b] == bits[at..at + b];
      FirstCodeGrows(lengths, a, b);
      RankFinds(lengths, s);
      CodeParts(lengths, s);
      CodeParts(lengths, t);
      var p := Pow2(b - a);
      MulMonotone(Big(lo) + 1, FirstCode(lengths, a) + |WithLength(lengths, a)|, p);
    }
  }

  lemma CodeParts(lengths: seq<u8>, s: nat)
    requires s < |lengths|
    ensures Code(lengths, s) == FirstCode(lengths, lengths[s]) + Rank(lengths, s)
  {
  }

  lemma MulMonotone(a: nat, b: nat, p: nat)
    requires a <= b
    ensures a * p <= b * p
  {
    assert b * p == a * p + (b - a) * p;
  }

  /** No codeword is a prefix of another one: at most one symbol can be read at a position. */
  lemma PrefixFree(lengths: seq<u8>, s: nat, t: nat, bits: seq<bit>, at: nat)
    requires Spells(lengths, s, bits, at) && Spells(lengths, t, bits, at)
    ensures s == t
  {
    hide Big, FirstCode, WithLength;
    SpelledFirst(lengths, s, t, bits, at);
    SpelledFirst(lengths, t, s, bits, at);
    RankFinds(lengths, s);
    RankFinds(lengths, t);
  }

  // The Kraft sum as the code-space bookkeeping of the table construction.

  /** Code space left after all codes with at most len bits, in codes of len bits; negative when over-subscribed. */
  function Left(lengths: seq<u8>, len: nat): int {
    if len == 0 then 1 else 2 * Left(lengths, len - 1) - |WithLength(lengths, len)|
  }

  /** The Kraft sum of the symbols with at most len bits. */
  function KraftUpTo(lengths: seq<u8>, len: nat): nat
    requires len <= 15
  {
    if len == 0 then 0 else KraftUpTo(lengths, len - 1) + |WithLength(lengths, len)| * Pow2(15 - len)
  }

  lemma {:induction false} LeftIsKraft(lengths: seq<u8>, len: nat)
    requires len <= 15
    ensures Left(lengths, len) * Pow2(15 - len) == Pow2(15) - KraftUpTo(lengths, len)
  {
    hide Pow2, WithLength;
    if len > 0 {
      LeftIsKraft(lengths, len - 1);
      PowStep(15 - len);
      var p, x, c := Pow2(15 - len), Left(lengths, len - 1), |WithLength(lengths, len)|;
      MulSplit(x, c, p);
    }
  }

  lemma MulSplit(x: int, c: int, p: int)
    ensures (2 * x - c) * p == x * (2 * p) - c * p
  {
  }

  lemma {:induction false} KraftBySymbol(lengths: seq<u8>, len: nat)
    requires lengths != [] && len <= 15
    ensures var k := |lengths| - 1;
            KraftUpTo(lengths, len)
            == KraftUpTo(lengths[..k], len) + if 1 <= lengths[k] <= len then Pow2(15 - lengths[k]) else 0
  {
    hide Pow2, WithLength;
    if len > 0 {
      KraftBySymbol(lengths, len - 1);
      var k := |lengths| - 1;
      LengthsSnoc(lengths, len);
      OneMore(|WithLength(lengths[..k], len)|, Pow2(15 - len));
    }
  }

  lemma LengthsSnoc(lengths: seq<u8>, len: nat)
    requires lengths != []
    ensures var k := |lengths| - 1;
            |WithLength(lengths, len)| == |WithLength(lengths[..k], len)| + if lengths[k] == len then 1 else 0
  {
  }

  lemma OneMore(c: nat, p: nat)
    ensures (c + 1) * p == c * p + p
  {
  }

  lemma {:induction false} KraftSums(lengths: seq<u8>)
    requires forall i :: 0 <= i < |lengths| ==> lengths[i] <= 15
    ensures Kraft(lengths) == KraftUpTo(lengths, 15)
  {
    if lengths == [] {
      EmptyKraft(15);
    } else {
      KraftSums(lengths[..|lengths| - 1]);
      KraftBySymbol(lengths, 15);
    }
  }

  lemma {:induction false} EmptyKraft(len: nat)
    requires len <= 15
    ensures KraftUpTo([], len) == 0
  {
    if len > 0 {
      EmptyKraft(len - 1);
      assert |WithLength([], len)| == 0;
    }
  }

  lemma {:induction false} LeftShrinks(lengths: seq<u8>, a: nat, b: nat)
    requires a <= b && Left(lengths, a) < 0
    ensures Left(lengths, b) < 0
  {
    if a < b {
      LeftShrinks(lengths, a, b - 1);
    }
  }

  /** The construction runs out of code space at some length exactly when the Kraft sum exceeds 1. */
  lemma KraftIffLeft(lengths: seq<u8>)
    requires forall i :: 0 <= i < |lengths| ==> lengths[i] <= 15
    ensures Kraft(lengths) <= Pow2(15) <==> Left(lengths, 15) >= 0
  {
    hide Pow2, Left, Kraft, KraftUpTo;
    LeftIsKraft(lengths, 15);
    KraftSums(lengths);
    PowZero();
  }

  /** Every symbol of a buildable code has a codeword of its length. */
  lemma CodeFits(lengths: seq<u8>, sym: nat)
    requires Buildable(lengths) && sym < |lengths| && lengths[sym] > 0
    ensures Code(lengths, sym) < Pow2(lengths[sym])
  {
    var len := lengths[sym];
    KraftIffLeft(lengths);
    if Left(lengths, len) < 0 {
      LeftShrinks(lengths, len, 15);
    }
    SpaceUsed(lengths, len);
    RankFinds(lengths, sym);
  }

  lemma {:induction false} SpaceUsed(lengths: seq<u8>, len: nat)
    requires len >= 1
    ensures FirstCode(lengths, len) + |WithLength(lengths, len)| + Left(lengths, len) == Pow2(len)
  {
    if len > 1 {
      SpaceUsed(lengths, len - 1);
    } else {
      assert Left(lengths, 0) == 1 && Pow2(1) == 2;
    }
  }

  /** The codeword itself, and that it is what the code spells. */
  function Codeword(code: nat, len: nat): (r: seq<bit>)
    ensures |r| == len
  {
    if len == 0 then [] else Codeword(code / 2, len - 1) + [code % 2]
  }

  lemma {:induction false} BigCodeword(code: nat, len: nat)
    requires code < Pow2(len)
    ensures Big(Codeword(code, len)) == code
  {
    if len > 0 {
      BigCodeword(code / 2, len - 1);
      var w := Codeword(code, len);
      assert w[..len - 1] == Codeword(code / 2, len - 1);
    }
  }

  lemma CodewordSpells(lengths: seq<u8>, sym: nat, before: seq<bit>, after: seq<bit>)
    requires Buildable(lengths) && sym < |lengths| && lengths[sym] > 0
    ensures Spells(lengths, sym, before + Codeword(Code(lengths, sym), lengths[sym]) + after, |before|)
  {
    hide Buildable, Code;
    var w := Codeword(Code(lengths, sym), lengths[sym]);
    CodeFits(lengths, sym);
    BigCodeword(Code(lengths, sym), lengths[sym]);
    assert (before + w + after)[|before|..|before| + lengths[sym]] == w;
  }

  // One step of filling the table.

  lemma NextSymbol(lengths: seq<u8>, sym: nat, len: nat)
    requires sym < |lengths|
    ensures WithLength(lengths[..sym + 1], len)
         == WithLength(lengths[..sym], len) + if lengths[sym] == len then [sym] else []
  {
    assert lengths[..sym + 1][..sym] == lengths[..sym];
  }

  /** A symbol's slot lies inside the table of all used symbols. */
  lemma SlotExists(lengths: seq<u8>, sym: nat)
    requires sym < |lengths| && 1 <= lengths[sym] <= 15
    ensures |Ordered(lengths, lengths[sym])| + |WithLength(lengths[..sym], lengths[sym])| < |Used(lengths)|
  {
    RankFinds(lengths, sym);
    OrderedAt(lengths, lengths[sym], Rank(lengths, sym));
  }

  /** Slots of different lengths do not meet. */
  lemma SlotsApart(lengths: seq<u8>, sym: nat, len: nat, r: nat)
    requires sym < |lengths| && 1 <= lengths[sym] <= 15 && 1 <= len <= 15 && len != lengths[sym]
    requires r < |WithLength(lengths[..sym], len)|
    ensures |Ordered(lengths, len)| + r
         != |Ordered(lengths, lengths[sym])| + |WithLength(lengths[..sym], lengths[sym])|
  {
    hide Ordered, WithLength;
    var l := lengths[sym];
    WithLengthPrefix(lengths, len, sym);
    RankFinds(lengths, sym);
    OrderedStep(lengths, len);
    OrderedStep(lengths, l);
    if len < l {
      OrderedPrefix(lengths, len + 1, l);
    } else {
      OrderedPrefix(lengths, l + 1, len);
    }
  }

  /** The symbols among the first n with len bits are in their slots, from |Ordered(len)| on. */
  predicate Placed(symbols: seq<nat>, lengths: seq<u8>, n: nat, len: nat)
    requires n <= |lengths|
  {
    var w := WithLength(lengths[..n], len);
    var base := |Ordered(lengths, len)|;
    && (w != [] ==> base + |w| <= |symbols|)
    && forall r :: 0 <= r < |w| ==> base + r < |symbols| && symbols[base + r] == w[r]
  }

  lemma PlaceNext(symbols: seq<nat>, lengths: seq<u8>, sym: nat, len: nat)
    requires sym < |lengths| && lengths[sym] <= 15 && 1 <= len <= 15 && Placed(symbols, lengths, sym, len)
    ensures lengths[sym] == 0 ==> Placed(symbols, lengths, sym + 1, len)
    ensures var i := |Ordered(lengths, lengths[sym])| + |WithLength(lengths[..sym], lengths[sym])|;
            lengths[sym] != 0 && i < |symbols| ==> Placed(symbols[i := sym], lengths, sym + 1, len)
  {
    hide Ordered, WithLength;
    NextSymbol(lengths, sym, len);
    var l := lengths[sym];
    var i := |Ordered(lengths, l)| + |WithLength(lengths[..sym], l)|;
    var base, w := |Ordered(lengths, len)|, WithLength(lengths[..sym], len);
    if l != 0 && i < |symbols| {
      forall r | 0 <= r < |w|
        ensures base + r < |symbols| && symbols[i := sym][base + r] == w[r]
      {
        if len != l {
          SlotsApart(lengths, sym, len, r);
        }
      }
    }
  }

  lemma NothingPlaced(symbols: seq<nat>, lengths: seq<u8>, len: nat)
    ensures WithLength(lengths[..0], len) == [] && Placed(symbols, lengths, 0, len)
  {
  }

  lemma {:induction false} AllPlaced(symbols: seq<nat>, lengths: seq<u8>, len: nat)
    requires 1 <= len <= 16
    requires forall l :: 1 <= l <= 15 ==> Placed(symbols, lengths, |lengths|, l)
    ensures Ordered(lengths, len) <= symbols
  {
    hide Ordered, WithLength;
    FirstLength(lengths);
    if len > 1 {
      var l := len - 1;
      AllPlaced(symbols, lengths, l);
      assert Placed(symbols, lengths, |lengths|, l) && lengths[..|lengths|] == lengths;
      OrderedStep(lengths, l);
      var base, w := Ordered(lengths, l), WithLength(lengths, l);
      forall r | 0 <= r < |w|
        ensures |base| + r < |symbols| && symbols[|base| + r] == w[r]
      {
      }
      assert symbols[..|base| + |w|] == base + w;
    }
  }

  // One step of reading a symbol.

  lemma OneBit(bits: seq<bit>, at: nat, k: nat)
    requires at <= k < |bits|
    ensures Number(bits[k..k + 1]) == bits[k]
    ensures Or(2 * Big(bits[at..k]), bits[k]) == Big(bits[at..k + 1]) >= 2 * Big(bits[at..k])
  {
    var b := bits[k..k + 1];
    assert b[1..] == [] && Number(b) == b[0] + 2 * Number(b[1..]);
    assert bits[at..k + 1][..k - at] == bits[at..k];
    EvenOr(Big(bits[at..k]), bits[k]);
  }

  lemma EvenOr(a: nat, b: bit)
    ensures Or(2 * a, b) == 2 * a + b
  {
    if a > 0 && b == 1 {
      assert Or(2 * a / 2, 0) == a;
    }
  }

  lemma NoBits(bits: seq<bit>, at: nat)
    requires at <= |bits|
    ensures Big(bits[at..at]) == 0
  {
  }

  /** A code inside the range of its length belongs to the symbol the table holds there. */
  lemma SymbolAt(lengths: seq<u8>, len: nat, i: nat, bits: seq<bit>, at: nat)
    requires 1 <= len <= 15 && i < |WithLength(lengths, len)| && at + len <= |bits|
    requires Big(bits[at..at + len]) == FirstCode(lengths, len) + i
    ensures |Ordered(lengths, len)| + i < |Used(lengths)|
    ensures var s := Used(lengths)[|Ordered(lengths, len)| + i];
            Spells(lengths, s, bits, at) && lengths[s] == len
  {
    hide Ordered, WithLength, FirstCode, Big, Code, Used;
    OrderedAt(lengths, len, i);
    MemberRank(lengths, len, i);
    CodeParts(lengths, WithLength(lengths, len)[i]);
  }

  /** A code past the range of its length is no symbol's. */
  lemma NoSymbolHere(lengths: seq<u8>, len: nat, bits: seq<bit>, at: nat)
    requires at + len <= |bits|
    requires Big(bits[at..at + len]) >= FirstCode(lengths, len) + |WithLength(lengths, len)|
    ensures forall s: nat :: Spells(lengths, s, bits, at) ==> lengths[s] != len
  {
    hide Big, FirstCode, WithLength;
    forall s: nat | Spells(lengths, s, bits, at)
      ensures lengths[s] != len
    {
      RankFinds(lengths, s);
    }
  }

  lemma FirstLength(lengths: seq<u8>)
    ensures FirstCode(lengths, 1) == 0 && Ordered(lengths, 1) == []
  {
  }

  lemma FirstCodeStep(lengths: seq<u8>, len: nat)
    requires len >= 1
    ensures FirstCode(lengths, len + 1) == 2 * (FirstCode(lengths, len) + |WithLength(lengths, len)|)
  {
  }

  // Building and using the tables.

  class Huffman {
    const count: array<nat>
    const symbol: array<nat>

    ghost predicate Valid() {
      count.Length == 16 && symbol.Length == MAX_SYMBOLS && count != symbol
    }

    /** The tables describe the canonical code with these lengths. */
    ghost predicate Built(lengths: seq<u8>)
      reads count, symbol
    {
      && Valid() && Buildable(lengths)
      && (forall len :: 1 <= len <= 15 ==> count[len] == |WithLength(lengths, len)|)
      && symbol[..|Used(lengths)|] == Used(lengths)
    }

    constructor ()
      ensures Valid() && fresh(count) && fresh(symbol)
    {
      count := new nat[16](_ => 0);
      symbol := new nat[MAX_SYMBOLS](_ => 0);
    }

    method CountLengths(lengths: seq<u8>) returns (ok: bool)
      requires Valid()
      modifies count
      ensures ok <==> forall i :: 0 <= i < |lengths| ==> lengths[i] <= 15
      ensures ok ==> forall len :: 1 <= len <= 15 ==> count[len] == |WithLength(lengths, len)|
    {
      for i := 0 to 16
        invariant forall j :: 0 <= j < i ==> count[j] == 0
      {
        count[i] := 0;
      }
      for i := 0 to |lengths|
        invariant forall j :: 0 <= j < i ==> lengths[j] <= 15
        invariant forall len :: 0 <= len <= 15 ==> count[len] == |WithLength(lengths[..i], len)|
      {
        if lengths[i] > 15 {
          return false;
        }
        assert lengths[..i + 1][..i] == lengths[..i];
        count[lengths[i]] := count[lengths[i]] + 1;
      }
      assert lengths[..|lengths|] == lengths;
      count[0] := 0;
      return true;
    }

    method CheckSpace(ghost lengths: seq<u8>) returns (ok: bool)
      requires Valid()
      requires forall len :: 1 <= len <= 15 ==> count[len] == |WithLength(lengths, len)|
      requires forall i :: 0 <= i < |lengths| ==> lengths[i] <= 15
      ensures ok <==> Kraft(lengths) <= Pow2(15)
    {
      hide WithLength, Kraft, Pow2;
      KraftIffLeft(lengths);
      var left := 1;
      for len := 1 to 16
        invariant left == Left(lengths, len - 1) >= 0
      {
        left := left * 2;
        var c := count[len];
        if left < c {
          LeftShrinks(lengths, len, 15);
          return false;
        }
        left := left - c;
      }
      return true;
    }

    method Offsets(ghost lengths: seq<u8>) returns (offs: seq<nat>)
      requires Valid()
      requires forall len :: 1 <= len <= 15 ==> count[len] == |WithLength(lengths, len)|
      ensures |offs| == 16
      ensures forall len :: 1 <= len <= 15 ==> offs[len] == |Ordered(lengths, len)|
    {
      hide WithLength;
      offs := seq(16, _ => 0);
      for len := 1 to 15
        invariant |offs| == 16
        invariant forall l :: 1 <= l <= len ==> offs[l] == |Ordered(lengths, l)|
      {
        offs := offs[len + 1 := offs[len] + count[len]];
      }
    }

    method PlaceSymbols(lengths: seq<u8>, offsets: seq<nat>) returns (ok: bool)
      requires Valid()
      requires forall i :: 0 <= i < |lengths| ==> lengths[i] <= 15
      requires |offsets| == 16 && forall len :: 1 <= len <= 15 ==> offsets[len] == |Ordered(lengths, len)|
      modifies symbol
      ensures ok <==> |Used(lengths)| <= MAX_SYMBOLS
      ensures ok ==> symbol[..|Used(lengths)|] == Used(lengths)
    {
      hide Ordered, WithLength, Placed;
      var offs := offsets;
      forall len ensures WithLength(lengths[..0], len) == [] && Placed(symbol[..], lengths, 0, len) {
        NothingPlaced(symbol[..], lengths, len);
      }
      for sym := 0 to |lengths|
        invariant |offs| == 16
        invariant forall len :: 1 <= len <= 15 ==>
                    offs[len] == |Ordered(lengths, len)| + |WithLength(lengths[..sym], len)|
        invariant forall len :: 1 <= len <= 15 ==> Placed(symbol[..], lengths, sym, len)
      {
        var l := lengths[sym];
        forall len | 1 <= len <= 15
          ensures WithLength(lengths[..sym + 1], len)
               == WithLength(lengths[..sym], len) + if l == len then [sym] else []
        {
          NextSymbol(lengths, sym, len);
        }
        ghost var before := symbol[..];
        if l != 0 {
          var i := offs[l];
          SlotExists(lengths, sym);
          if i >= MAX_SYMBOLS {
            return false;
          }
          symbol[i] := sym;
          assert symbol[..] == before[i := sym];
          offs := offs[l := offs[l] + 1];
        }
        ghost var after, n := symbol[..], sym + 1;
        forall len | 1 <= len <= 15
          ensures Placed(after, lengths, n, len)
        {
          PlaceNext(before, lengths, sym, len);
        }
      }
      AllPlaced(symbol[..], lengths, 16);
      return true;
    }

    /** Building the tables succeeds exactly for the buildable lists, and then the tables are those of the list. */
    method Construct(lengths: seq<u8>) returns (ok: bool)
      requires Valid()
      modifies count, symbol
      ensures ok <==> Buildable(lengths)
      ensures ok ==> Built(lengths)
    {
      hide WithLength, Ordered, Kraft, Pow2;
      ok := CountLengths(lengths);
      if !ok {
        return;
      }
      ok := CheckSpace(lengths);
      if !ok {
        return;
      }
      var offs := Offsets(lengths);
      ok := PlaceSymbols(lengths, offs);
    }

    /** Reading one symbol, one bit at a time: it succeeds exactly when some codeword comes next, and takes its bits. */
    method Decode(br: BitReader, ghost lengths: seq<u8>) returns (r: Result<nat>)
      requires Built(lengths) && br.Valid()
      modifies br
      ensures r.Ok? <==> exists s :: Spells(lengths, s, br.Source(), old(br.At()))
      ensures r.Ok? ==> Spells(lengths, r.value, br.Source(), old(br.At()))
      ensures r.Ok? ==> br.Valid() && br.At() == old(br.At()) + lengths[r.value]
    {
      hide WithLength, Ordered, FirstCode, Big, Kraft, Code, Gather, BitsOf, Number, Or;
      ghost var at, bits := br.At(), br.Source();
      var code: int, first: int, index: int := 0, 0, 0;
      NoBits(bits, at);
      FirstLength(lengths);
      for len := 1 to 16
        invariant Built(lengths) && br.Valid() && br.At() == at + len - 1 <= |bits|
        invariant code == 2 * Big(bits[at..at + len - 1])
        invariant first == FirstCode(lengths, len) <= code && index == |Ordered(lengths, len)|
        invariant forall s: nat :: Spells(lengths, s, bits, at) ==> lengths[s] >= len
      {
        var b := br.GetBits(1);
        if b.Err? {
          return Err;
        }
        OneBit(bits, at, at + len - 1);
        code := Or(code, b.value);
        var c := count[len];
        if code - first < c {
          var si := index + (code - first);
          SymbolAt(lengths, len, code - first, bits, at);
          return Ok(symbol[si]);
        }
        NoSymbolHere(lengths, len, bits, at);
        OrderedStep(lengths, len);
        FirstCodeStep(lengths, len);
        index := index + c;
        first := (first + c) * 2;
        code := code * 2;
      }
      return Err;
    }
  }
}
