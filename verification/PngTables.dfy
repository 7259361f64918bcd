/** The tables of DEFLATE against section 3.2 of RFC 1951, and what they mean for streams: every length at every
    distance has a match, and every run of code lengths has its symbol. */
module PngTables {
  import opened Bits
  import opened Wrappers
  import opened PngBits
  import opened PngHuffman
  import opened PngDeflate
  import opened PngEncode

  /** The length rows start at 3 and each begins where the one before ends; the last but one reaches 258, which also
      has a row of its own without extra bits. From row 8 on, four rows share their number of extra bits. */
  lemma LengthsTile(i: nat)
    requires i < 29
    ensures LenBase(0) == 3 && LenBase(28) == 258 && LenExtra(28) == 0
    ensures i < 27 ==> LenBase(i) + Pow2(LenExtra(i)) == LenBase(i + 1)
    ensures LenBase(27) + Pow2(LenExtra(27)) == 259
    ensures i < 28 ==> LenExtra(i) == if i < 8 then 0 else (i - 4) / 4
  {
    hide LenBase, LenExtra, Pow2;
    FirstRows();
    LastRows();
    LengthExtras(i);
    if i < 27 {
      NextRow(i);
    }
  }

  lemma LastRows()
    ensures LenBase(28) == 258 && LenExtra(28) == 0 && LenBase(27) + Pow2(LenExtra(27)) == 259
  {
    assert LenExtra(27) == 5;
    Powers();
  }

  lemma LengthExtras(i: nat)
    requires i < 29
    ensures i < 28 ==> LenExtra(i) == if i < 8 then 0 else (i - 4) / 4
  {
  }

  lemma NextRow(i: nat)
    requires i < 27
    ensures LenBase(i) + Pow2(LenExtra(i)) == LenBase(i + 1)
  {
    hide Pow2;
    Powers();
  }

  /** The distance rows start at 1; from row 4 on, two rows share their number of extra bits. */
  lemma DistanceRows(i: nat)
    requires i < 30
    ensures DistBase(0) == 1 && DistBase(29) + Pow2(DistExtra(29)) == 32769
    ensures i < 29 ==> DistBase(i) + Pow2(DistExtra(i)) == DistBase(i + 1)
    ensures DistExtra(i) == if i < 4 then 0 else (i - 2) / 2
  {
    hide Pow2, DistBase;
    DistancesTile(i);
    DistancesTile(29);
    assert DistBase(0) == 1 by {
      FirstRows();
    }
  }

  lemma FirstRows()
    ensures DistBase(0) == 1 && LenBase(0) == 3
  {
  }

  /** The row of a length below 259: the last one that does not start behind it. */
  lemma {:induction false} LengthRow(n: nat, i: nat) returns (row: nat)
    requires i < 28 && LenBase(0) <= n < LenBase(i) + Pow2(LenExtra(i))
    ensures row <= i && LenBase(row) <= n < LenBase(row) + Pow2(LenExtra(row))
    decreases i
  {
    hide LenBase, LenExtra, Pow2;
    row := i;
    if n < LenBase(i) {
      LengthsTile(i - 1);
      row := LengthRow(n, i - 1);
    }
  }

  lemma {:induction false} DistanceRow(d: nat, i: nat) returns (row: nat)
    requires i < 30 && DistBase(0) <= d < DistBase(i) + Pow2(DistExtra(i))
    ensures row <= i && DistBase(row) <= d < DistBase(row) + Pow2(DistExtra(row))
    decreases i
  {
    hide DistBase, DistExtra, Pow2;
    row := i;
    if d < DistBase(i) {
      DistanceRows(i - 1);
      row := DistanceRow(d, i - 1);
    }
  }

  /** Every length from 3 to 258 at every distance from 1 to 32768 has a match, and only those have one. */
  lemma MatchFor(n: nat, d: nat) returns (t: Token)
    requires 3 <= n <= 258 && 1 <= d <= 32768
    ensures t.Match? && ValidToken(FixedLit(), FixedDist(), t)
    ensures LenBase(t.lsym) + Number(t.lextra) == n && DistBase(t.dsym) + Number(t.dextra) == d
    ensures forall out :: Expanded([t], out) == if d <= |out| then Ok(Copy(out, d, n)) else Err
  {
    hide LenBase, LenExtra, DistBase, DistExtra, Pow2, Copy, Number;
    LengthsTile(27);
    DistanceRows(29);
    var l := LengthRow(n, 27);
    var s := DistanceRow(d, 29);
    FieldNumber(n - LenBase(l), LenExtra(l));
    FieldNumber(d - DistBase(s), DistExtra(s));
    t := Match(l, Field(n - LenBase(l), LenExtra(l)), s, Field(d - DistBase(s), DistExtra(s)));
    TokenIsMatch(t, n, d);
  }

  lemma TokenIsMatch(t: Token, n: nat, d: nat)
    requires t.Match? && t.lsym < 29 && t.dsym < 30 && |t.lextra| == LenExtra(t.lsym) && |t.dextra| == DistExtra(t.dsym)
    requires LenBase(t.lsym) + Number(t.lextra) == n && DistBase(t.dsym) + Number(t.dextra) == d && d > 0
    ensures ValidToken(FixedLit(), FixedDist(), t)
    ensures forall out :: Expanded([t], out) == if d <= |out| then Ok(Copy(out, d, n)) else Err
  {
    hide LenBase, LenExtra, DistBase, DistExtra, Copy, Number, FixedLit, FixedDist, Expanded, ValidToken;
    FixedMatchValid(t);
    forall out
      ensures Expanded([t], out) == if d <= |out| then Ok(Copy(out, d, n)) else Err
    {
      ExpandOne(t, out);
    }
  }

  lemma FixedMatchValid(t: Token)
    requires t.Match? && t.lsym < 29 && t.dsym < 30 && |t.lextra| == LenExtra(t.lsym) && |t.dextra| == DistExtra(t.dsym)
    ensures ValidToken(FixedLit(), FixedDist(), t)
  {
    hide LenExtra, DistExtra, FixedLit, FixedDist, HasWord;
    FixedHave(257 + t.lsym, t.dsym);
  }

  lemma ExpandOne(t: Token, out: seq<u8>)
    requires t.Match? && t.lsym < 29 && t.dsym < 30
    ensures var d := DistBase(t.dsym) + Number(t.dextra);
            Expanded([t], out) ==
            if 1 <= d <= |out| then Ok(Copy(out, d, LenBase(t.lsym) + Number(t.lextra))) else Err
  {
    hide LenBase, DistBase, Copy, Number, Expanded;
    assert [t][1..] == [];
    var d := DistBase(t.dsym) + Number(t.dextra);
    ExpandFirst([t], out);
    if 1 <= d <= |out| {
      ExpandNone(Copy(out, d, LenBase(t.lsym) + Number(t.lextra)));
    }
  }

  lemma ExpandNone(out: seq<u8>)
    ensures Expanded([], out) == Ok(out)
  {
  }

  lemma ExpandFirst(ts: seq<Token>, out: seq<u8>)
    requires ts != [] && ts[0].Match?
    requires forall i :: 0 <= i < |ts| && ts[i].Match? ==> ts[i].lsym < 29 && ts[i].dsym < 30
    ensures var t := ts[0];
            var d := DistBase(t.dsym) + Number(t.dextra);
            Expanded(ts, out) ==
            if d == 0 || d > |out| then Err
            else Expanded(ts[1..], Copy(out, d, LenBase(t.lsym) + Number(t.lextra)))
  {
    hide LenBase, DistBase, Copy, Number;
  }

  lemma FixedHave(sym: nat, d: nat)
    requires sym < 288 && d < 32
    ensures HasWord(FixedLit(), sym) && HasWord(FixedDist(), d)
  {
  }

  lemma MatchLimits(lit: seq<u8>, dist: seq<u8>, t: Token)
    requires t.Match? && ValidToken(lit, dist, t)
    ensures 3 <= LenBase(t.lsym) + Number(t.lextra) <= 258 && 1 <= DistBase(t.dsym) + Number(t.dextra) <= 32768
  {
    hide Number, Pow2, DistBase, DistExtra, HasWord;
    Powers();
    DistanceInWindow(t.dsym, t.dextra);
  }

  /** A byte and a match of length n at distance 1, in a final block of fixed codes, inflate to n + 1 times that
      byte; for n = 258 the match can be symbol 285, which has no extra bits. */
  lemma RunInflates(b: u8, n: nat) returns (t: Token)
    requires 3 <= n <= 258
    ensures t.Match? && ValidStream([FixedChunk([Literal(b), t])], 0)
    ensures n == 258 ==> t.lsym == 28 && t.lextra == []
    ensures forall bits :: Stands(bits, 0, StreamBits([FixedChunk([Literal(b), t])], 0)) ==>
              Inflate(bits, 0, []).Ok? && Inflate(bits, 0, []).value.out == Repeat(b, n + 1)
  {
    hide Copy, LenBase, DistBase, Number, StreamBits, Inflate, FixedLit, FixedDist, StreamOutput, ValidStream;
    if n == 258 {
      t := LongestMatch();
    } else {
      t := MatchFor(n, 1);
    }
    var cs := [FixedChunk([Literal(b), t])];
    OneBlock(b, t);
    RunOf(b, n);
    forall bits | Stands(bits, 0, StreamBits(cs, 0))
      ensures Inflate(bits, 0, []).Ok? && Inflate(bits, 0, []).value.out == Repeat(b, n + 1)
    {
      InflateDecodes(cs, bits, 0, []);
    }
  }

  lemma LongestMatch() returns (t: Token)
    ensures t == Match(28, [], 0, []) && ValidToken(FixedLit(), FixedDist(), t)
    ensures forall out :: Expanded([t], out) == if 1 <= |out| then Ok(Copy(out, 1, 258)) else Err
  {
    hide LenBase, LenExtra, DistBase, DistExtra, Pow2, Copy, FixedLit, FixedDist, HasWord, Number, ValidToken, Expanded;
    t := Match(28, [], 0, []);
    LengthsTile(28);
    DistanceRows(0);
    NoBits();
    TokenIsMatch(t, 258, 1);
  }

  lemma NoBits()
    ensures Number([]) == 0
  {
  }

  lemma OneBlock(b: u8, t: Token)
    requires t.Match? && ValidToken(FixedLit(), FixedDist(), t)
    ensures ValidStream([FixedChunk([Literal(b), t])], 0)
    ensures StreamOutput([FixedChunk([Literal(b), t])], 0, []) == Expanded([t], [b])
  {
    hide LenBase, DistBase, Number, Copy, LenExtra, DistExtra, HasWord, ValidToken, FixedLit, FixedDist;
    assert HasWord(FixedLit(), b) by { FixedHave(b, 0); }
    LiteralValid(b);
    var ts := [Literal(b), t];
    assert ValidTokens(FixedLit(), FixedDist(), ts);
    assert [] + [b] == [b] && ts[1..] == [t];
  }

  lemma LiteralValid(b: u8)
    ensures ValidToken(FixedLit(), FixedDist(), Literal(b))
  {
    FixedHave(b, 0);
  }

  lemma {:induction false} RunOf(b: u8, n: nat)
    ensures Copy([b], 1, n) == Repeat(b, n + 1)
  {
    if n > 0 {
      RunOf(b, n - 1);
    }
  }

  // Code length runs.

  /** The runs each symbol can describe: 3 to 6 repetitions, 3 to 10 zeros, 11 to 138 zeros. */
  lemma RunLengths(sym: nat, n: nat)
    requires 16 <= sym <= 18
    ensures (exists x: seq<bit> :: |x| == RunBits(sym) && RunBase(sym) + Number(x) == n) <==>
            if sym == 16 then 3 <= n <= 6 else if sym == 17 then 3 <= n <= 10 else 11 <= n <= 138
  {
    hide Number, Pow2;
    Powers();
    if RunBase(sym) <= n < RunBase(sym) + Pow2(RunBits(sym)) {
      var x := Field(n - RunBase(sym), RunBits(sym));
      FieldNumber(n - RunBase(sym), RunBits(sym));
      assert |x| == RunBits(sym) && RunBase(sym) + Number(x) == n;
    }
    forall x: seq<bit> | |x| == RunBits(sym) && RunBase(sym) + Number(x) == n
      ensures n < RunBase(sym) + Pow2(RunBits(sym))
    {
    }
  }

  /** The code length symbols come in the order: the runs, zero, and then the lengths from 8 outwards. */
  lemma ClenOrderZigzag(i: nat)
    requires i < 19
    ensures ClenOrder(i) == if i < 3 then 16 + i else if i == 3 then 0
                            else if i % 2 == 0 then 8 + (i - 4) / 2 else 7 - (i - 5) / 2
  {
  }

  /** The next byte boundary is the first one that is not before a position. */
  lemma BoundaryIsNext(at: nat)
    ensures NextBoundary(at) % 8 == 0 && at <= NextBoundary(at) < at + 8
  {
  }

  /** A code need not use up all codewords: one symbol with a codeword of any length will do, and so will none; but three
      codewords of one bit are too many. */
  lemma IncompleteCodes(len: u8)
    requires 1 <= len <= 15
    ensures Buildable([len]) && Buildable([]) && !Buildable([1, 1, 1])
  {
    hide Pow2;
    Powers();
    Pow2Add(8, 7);
    Pow2Monotone(15 - len, 15);
    EmptySum();
    OneSum(len);
    OneSum(1);
    var three, two: seq<u8> := [1, 1, 1], [1, 1];
    PowStep(14);
    assert three[..2] == two && two[..1] == [1];
    assert Kraft(two) == 2 * Pow2(14) && Kraft(three) == 3 * Pow2(14);
    UsedBound([], 16);
    UsedBound([len], 16);
  }

  lemma OneSum(len: u8)
    requires 1 <= len <= 15
    ensures Kraft([len]) == Pow2(15 - len)
  {
    assert [len][..0] == [];
  }
}
