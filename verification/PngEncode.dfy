/** Every DEFLATE stream an encoder can write (RFC 1951) is inflated to what it stands for. */
module PngEncode {
  import opened Bits
  import opened Wrappers
  import opened PngBits
  import opened PngHuffman
  import opened PngDeflate

  /** The piece stands at a position. */
  predicate Stands(bits: seq<bit>, at: nat, piece: seq<bit>) {
    at + |piece| <= |bits| && bits[at..at + |piece|] == piece
  }

  lemma StandsApart(bits: seq<bit>, at: nat, a: seq<bit>, b: seq<bit>)
    requires Stands(bits, at, a + b)
    ensures Stands(bits, at, a) && Stands(bits, at + |a|, b)
  {
    var p := bits[at..at + |a + b|];
    assert p[..|a|] == a && p[|a|..] == b;
    assert bits[at..at + |a|] == p[..|a|] && bits[at + |a|..at + |a| + |b|] == p[|a|..];
  }

  lemma StandsInFour(bits: seq<bit>, at: nat, a: seq<bit>, b: seq<bit>, c: seq<bit>, d: seq<bit>)
    requires Stands(bits, at, a + (b + (c + d)))
    ensures Stands(bits, at, a) && Stands(bits, at + |a|, b) && Stands(bits, at + |a| + |b|, c)
    ensures Stands(bits, at + |a| + |b| + |c|, d)
  {
    hide Stands;
    StandsApart(bits, at, a, b + (c + d));
    StandsApart(bits, at + |a|, b, c + d);
    StandsApart(bits, at + |a| + |b|, c, d);
  }

  /** A number in n bits, least significant bit first. */
  function Field(x: nat, n: nat): (r: seq<bit>)
    ensures |r| == n
  {
    if n == 0 then [] else [x % 2] + Field(x / 2, n - 1)
  }

  lemma {:induction false} FieldNumber(x: nat, n: nat)
    requires x < Pow2(n)
    ensures Number(Field(x, n)) == x
  {
    if n > 0 {
      FieldNumber(x / 2, n - 1);
      assert Field(x, n)[1..] == Field(x / 2, n - 1);
    }
  }

  lemma FieldStands(bits: seq<bit>, at: nat, x: nat, n: nat)
    requires Stands(bits, at, Field(x, n)) && x < Pow2(n)
    ensures at + n <= |bits| && Number(bits[at..at + n]) == x
  {
    FieldNumber(x, n);
  }

  function Word(lengths: seq<u8>, sym: nat): (r: seq<bit>)
    requires sym < |lengths|
    ensures |r| == lengths[sym]
  {
    Codeword(Code(lengths, sym), lengths[sym])
  }

  predicate HasWord(lengths: seq<u8>, sym: nat) {
    sym < |lengths| && lengths[sym] > 0
  }

  lemma WordStands(lengths: seq<u8>, sym: nat, bits: seq<bit>, at: nat)
    requires Buildable(lengths) && HasWord(lengths, sym) && Stands(bits, at, Word(lengths, sym))
    ensures Next(lengths, bits, at) == Some(sym) && Spells(lengths, sym, bits, at)
  {
    hide Buildable, Code, Next, Pow2;
    CodeFits(lengths, sym);
    BigCodeword(Code(lengths, sym), lengths[sym]);
    NextIs(lengths, bits, at, sym);
  }

  // Literals and matches.

  /** A match is named by its length symbol 257 + lsym, its distance symbol and their extra bits. */
  datatype Token = Literal(b: u8) | Match(lsym: nat, lextra: seq<bit>, dsym: nat, dextra: seq<bit>)

  predicate ValidToken(lit: seq<u8>, dist: seq<u8>, t: Token) {
    match t
    case Literal(b) => HasWord(lit, b)
    case Match(l, lx, d, dx) =>
      && l < 29 && HasWord(lit, 257 + l) && |lx| == LenExtra(l)
      && d < 30 && HasWord(dist, d) && |dx| == DistExtra(d)
  }

  predicate ValidTokens(lit: seq<u8>, dist: seq<u8>, ts: seq<Token>) {
    forall i :: 0 <= i < |ts| ==> ValidToken(lit, dist, ts[i])
  }

  function TokenBits(lit: seq<u8>, dist: seq<u8>, t: Token): seq<bit>
    requires ValidToken(lit, dist, t)
  {
    match t
    case Literal(b) => Word(lit, b)
    case Match(l, lx, d, dx) => Word(lit, 257 + l) + (lx + (Word(dist, d) + dx))
  }

  function TokensBits(lit: seq<u8>, dist: seq<u8>, ts: seq<Token>): seq<bit>
    requires ValidTokens(lit, dist, ts) && HasWord(lit, 256)
  {
    if ts == [] then Word(lit, 256) else TokenBits(lit, dist, ts[0]) + TokensBits(lit, dist, ts[1..])
  }

  /** What tokens add to the output; a match that starts before the output is an error. */
  function Expanded(ts: seq<Token>, out: seq<u8>): Result<seq<u8>>
    requires forall i :: 0 <= i < |ts| && ts[i].Match? ==> ts[i].lsym < 29 && ts[i].dsym < 30
  {
    if ts == [] then Ok(out) else
    match ts[0]
    case Literal(b) => Expanded(ts[1..], out + [b])
    case Match(l, lx, d, dx) =>
      var distance := DistBase(d) + Number(dx);
      if distance == 0 || distance > |out| then Err
      else Expanded(ts[1..], Copy(out, distance, LenBase(l) + Number(lx)))
  }

  lemma MatchDecodes(dist: seq<u8>, bits: seq<bit>, at: nat, t: Token, lit: seq<u8>)
    requires t.Match? && ValidToken(lit, dist, t) && Buildable(dist)
    requires Stands(bits, at, t.lextra + (Word(dist, t.dsym) + t.dextra))
    ensures PngDeflate.Match(dist, bits, at, t.lsym)
         == Ok(MatchCode(LenBase(t.lsym) + Number(t.lextra), DistBase(t.dsym) + Number(t.dextra),
                         at + |t.lextra| + dist[t.dsym] + |t.dextra|))
  {
    hide Buildable, Word, Next, LenBase, LenExtra, DistBase, DistExtra, Number;
    StandsApart(bits, at, t.lextra, Word(dist, t.dsym) + t.dextra);
    StandsApart(bits, at + |t.lextra|, Word(dist, t.dsym), t.dextra);
    WordStands(dist, t.dsym, bits, at + |t.lextra|);
  }

  /** The bits of one token decode to the token, and the block goes on after them. */
  lemma TokenDecodes(lit: seq<u8>, dist: seq<u8>, bits: seq<bit>, at: nat, t: Token, out: seq<u8>)
    requires Buildable(lit) && Buildable(dist) && ValidToken(lit, dist, t)
    requires Stands(bits, at, TokenBits(lit, dist, t))
    ensures var next := at + |TokenBits(lit, dist, t)|;
            Block(lit, dist, bits, at, out)
            == match t
               case Literal(b) => Block(lit, dist, bits, next, out + [b])
               case Match(l, lx, d, dx) =>
                 var distance := DistBase(d) + Number(dx);
                 if distance == 0 || distance > |out| then Err
                 else Block(lit, dist, bits, next, Copy(out, distance, LenBase(l) + Number(lx)))
  {
    hide Buildable, ValidToken, TokenBits, LenBase, DistBase, Number, Copy, Stands, Block;
    match t {
      case Literal(_) => LiteralTokenDecodes(lit, dist, bits, at, t, out);
      case Match(_, _, _, _) => MatchTokenDecodes(lit, dist, bits, at, t, out);
    }
  }

  lemma LiteralTokenDecodes(lit: seq<u8>, dist: seq<u8>, bits: seq<bit>, at: nat, t: Token, out: seq<u8>)
    requires t.Literal? && Buildable(lit) && Buildable(dist) && ValidToken(lit, dist, t)
    requires Stands(bits, at, TokenBits(lit, dist, t))
    ensures Block(lit, dist, bits, at, out)
            == Block(lit, dist, bits, at + |TokenBits(lit, dist, t)|, out + [t.b])
  {
    hide Buildable, Word, PngDeflate.Match, Stands, Block, Spells;
    WordStands(lit, t.b, bits, at);
    BlockStep(lit, dist, bits, at, out, t.b);
  }

  lemma MatchTokenDecodes(lit: seq<u8>, dist: seq<u8>, bits: seq<bit>, at: nat, t: Token, out: seq<u8>)
    requires t.Match? && Buildable(lit) && Buildable(dist) && ValidToken(lit, dist, t)
    requires Stands(bits, at, TokenBits(lit, dist, t))
    ensures var next := at + |TokenBits(lit, dist, t)|;
            var distance := DistBase(t.dsym) + Number(t.dextra);
            Block(lit, dist, bits, at, out)
            == if distance == 0 || distance > |out| then Err
               else Block(lit, dist, bits, next, Copy(out, distance, LenBase(t.lsym) + Number(t.lextra)))
  {
    hide Buildable, ValidToken, TokenBits, HasWord, Word, LenBase, DistBase, Number, Copy, PngDeflate.Match, Stands,
         Block, Spells, Next;
    MatchBits(lit, dist, t);
    var l := t.lsym;
    var rest := t.lextra + (Word(dist, t.dsym) + t.dextra);
    StandsApart(bits, at, Word(lit, 257 + l), rest);
    WordStands(lit, 257 + l, bits, at);
    BlockStep(lit, dist, bits, at, out, 257 + l);
    MatchDecodes(dist, bits, at + lit[257 + l], t, lit);
  }

  /** The bits of a match: two codewords, each with its extra bits. */
  lemma MatchBits(lit: seq<u8>, dist: seq<u8>, t: Token)
    requires t.Match? && ValidToken(lit, dist, t)
    ensures t.lsym < 29 && t.dsym < 30 && HasWord(lit, 257 + t.lsym) && HasWord(dist, t.dsym)
    ensures 257 + t.lsym < |lit| && t.dsym < |dist|
    ensures TokenBits(lit, dist, t) == Word(lit, 257 + t.lsym) + (t.lextra + (Word(dist, t.dsym) + t.dextra))
    ensures |TokenBits(lit, dist, t)| == lit[257 + t.lsym] as nat + |t.lextra| + dist[t.dsym] as nat + |t.dextra|
  {
    hide Word;
  }

  /** The bits of a block of tokens decode to what the tokens stand for. */
  lemma {:induction false} BlockDecodes(lit: seq<u8>, dist: seq<u8>, bits: seq<bit>, at: nat, ts: seq<Token>,
                                        out: seq<u8>)
    requires Buildable(lit) && Buildable(dist) && ValidTokens(lit, dist, ts) && HasWord(lit, 256)
    requires Stands(bits, at, TokensBits(lit, dist, ts))
    ensures Block(lit, dist, bits, at, out)
         == var o := Expanded(ts, out);
            if o.Err? then Err else Ok(Output(o.value, at + |TokensBits(lit, dist, ts)|))
    decreases |ts|
  {
    hide Buildable, Word, LenBase, LenExtra, DistBase, DistExtra, Number, Copy, Stands, Block, Spells, TokenBits;
    if ts == [] {
      WordStands(lit, 256, bits, at);
      BlockStep(lit, dist, bits, at, out, 256);
    } else {
      var t := ts[0];
      assert ValidToken(lit, dist, t);
      StandsApart(bits, at, TokenBits(lit, dist, t), TokensBits(lit, dist, ts[1..]));
      TokenDecodes(lit, dist, bits, at, t, out);
      var next := at + |TokenBits(lit, dist, t)|;
      match t {
        case Literal(b) =>
          BlockDecodes(lit, dist, bits, next, ts[1..], out + [b]);
        case Match(l, lx, d, dx) =>
          var distance := DistBase(d) + Number(dx);
          if 1 <= distance <= |out| {
            BlockDecodes(lit, dist, bits, next, ts[1..], Copy(out, distance, LenBase(l) + Number(lx)));
          }
      }
    }
  }

  // Run-length coded code lengths.

  /** One code length, or a run: symbol 16 repeats the last length, 17 and 18 repeat zero. */
  datatype Run = Plain(len: nat) | Again(sym: nat, extra: seq<bit>)

  predicate ValidRun(clen: seq<u8>, r: Run) {
    match r
    case Plain(len) => len < 16 && HasWord(clen, len)
    case Again(sym, x) => 16 <= sym <= 18 && HasWord(clen, sym) && |x| == RunBits(sym)
  }

  predicate ValidRuns(clen: seq<u8>, rs: seq<Run>) {
    forall i :: 0 <= i < |rs| ==> ValidRun(clen, rs[i])
  }

  function RunsBits(clen: seq<u8>, rs: seq<Run>): seq<bit>
    requires ValidRuns(clen, rs)
  {
    if rs == [] then [] else
    (match rs[0]
     case Plain(len) => Word(clen, len)
     case Again(sym, x) => Word(clen, sym) + x)
    + RunsBits(clen, rs[1..])
  }

  function Unrolled(clen: seq<u8>, rs: seq<Run>, acc: seq<u8>): Result<seq<u8>>
    requires ValidRuns(clen, rs)
  {
    if rs == [] then Ok(acc) else
    match rs[0]
    case Plain(len) => Unrolled(clen, rs[1..], acc + [len])
    case Again(sym, x) =>
      if sym == 16 && acc == [] then Err
      else Unrolled(clen, rs[1..],
                    acc + Repeat(if sym == 16 then acc[|acc| - 1] else 0, RunBase(sym) + Number(x)))
  }

  lemma {:induction false} UnrolledGrows(clen: seq<u8>, rs: seq<Run>, acc: seq<u8>)
    requires ValidRuns(clen, rs) && Unrolled(clen, rs, acc).Ok?
    ensures |Unrolled(clen, rs, acc).value| >= |acc| + |rs|
    decreases |rs|
  {
    hide Number;
    if rs != [] {
      match rs[0] {
        case Plain(len) => UnrolledGrows(clen, rs[1..], acc + [len]);
        case Again(sym, x) =>
          UnrolledGrows(clen, rs[1..],
                        acc + Repeat(if sym == 16 then acc[|acc| - 1] else 0, RunBase(sym) + Number(x)));
      }
    }
  }

  lemma {:induction false} ExpandDecodes(clen: seq<u8>, bits: seq<bit>, at: nat, rs: seq<Run>, acc: seq<u8>,
                                         total: nat)
    requires Buildable(clen) && |clen| == 19 && ValidRuns(clen, rs) && Stands(bits, at, RunsBits(clen, rs))
    requires Unrolled(clen, rs, acc).Ok? && |Unrolled(clen, rs, acc).value| == total
    ensures |acc| <= total
    ensures Expand(clen, bits, at, total, acc)
         == Ok(Lengths(Unrolled(clen, rs, acc).value, at + |RunsBits(clen, rs)|))
    decreases |rs|
  {
    hide Buildable, Word, Next, Number, Spells, Stands;
    UnrolledGrows(clen, rs, acc);
    if rs != [] {
      assert ValidRun(clen, rs[0]);
      match rs[0] {
        case Plain(len) =>
          StandsApart(bits, at, Word(clen, len), RunsBits(clen, rs[1..]));
          WordStands(clen, len, bits, at);
          ExpandDecodes(clen, bits, at + clen[len], rs[1..], acc + [len], total);
        case Again(sym, x) =>
          StandsApart(bits, at, Word(clen, sym) + x, RunsBits(clen, rs[1..]));
          StandsApart(bits, at, Word(clen, sym), x);
          WordStands(clen, sym, bits, at);
          ExpandDecodes(clen, bits, at + clen[sym] + RunBits(sym), rs[1..],
                        acc + Repeat(if sym == 16 then acc[|acc| - 1] else 0, RunBase(sym) + Number(x)), total);
      }
    }
  }

  // The code length code.

  /** The place of a symbol in the scrambled order. */
  function ClenPlace(j: nat): (i: nat)
    requires j < 19
    ensures i < 19 && ClenOrder(i) == j
  {
    [3, 17, 15, 13, 11, 9, 7, 5, 4, 6, 8, 10, 12, 14, 16, 18, 0, 1, 2][j]
  }

  lemma ClenPlaced(i: nat)
    requires i < 19
    ensures ClenPlace(ClenOrder(i)) == i
  {
  }

  function ClenBits(clen: seq<u8>, n: nat): (r: seq<bit>)
    requires |clen| == 19 && n <= 19
    ensures |r| == 3 * n
  {
    if n == 0 then [] else ClenBits(clen, n - 1) + Field(clen[ClenOrder(n - 1)], 3)
  }

  lemma {:induction false} ClenDecodes(clen: seq<u8>, bits: seq<bit>, at: nat, n: nat)
    requires |clen| == 19 && n <= 19 && (forall j :: 0 <= j < 19 ==> clen[j] < 8)
    requires Stands(bits, at, ClenBits(clen, n))
    ensures forall j :: 0 <= j < 19 ==> ClenLengths(bits, at, n)[j] == if ClenPlace(j) < n then clen[j] else 0
  {
    hide Number, ClenOrder, ClenPlace, Field;
    if n > 0 {
      StandsApart(bits, at, ClenBits(clen, n - 1), Field(clen[ClenOrder(n - 1)], 3));
      ClenDecodes(clen, bits, at, n - 1);
      assert Pow2(3) == 8;
      FieldStands(bits, at + 3 * (n - 1), clen[ClenOrder(n - 1)], 3);
      ClenPlaced(n - 1);
    }
  }

  /** The description of the two codes of a dynamic block. */
  datatype Header = Header(hlit: nat, hdist: nat, hclen: nat, clen: seq<u8>, runs: seq<Run>)

  predicate ValidHeader(h: Header) {
    && 257 <= h.hlit <= 286 && 1 <= h.hdist <= 32 && 4 <= h.hclen <= 19
    && |h.clen| == 19 && (forall j :: 0 <= j < 19 ==> h.clen[j] < 8)
    && (forall j :: 0 <= j < 19 && ClenPlace(j) >= h.hclen ==> h.clen[j] == 0)
    && Buildable(h.clen) && ValidRuns(h.clen, h.runs)
    && Unrolled(h.clen, h.runs, []).Ok? && |Unrolled(h.clen, h.runs, []).value| == h.hlit + h.hdist
  }

  function HeaderLit(h: Header): seq<u8>
    requires ValidHeader(h)
  {
    Unrolled(h.clen, h.runs, []).value[..h.hlit]
  }

  function HeaderDist(h: Header): seq<u8>
    requires ValidHeader(h)
  {
    Unrolled(h.clen, h.runs, []).value[h.hlit..]
  }

  function HeaderBits(h: Header): seq<bit>
    requires ValidHeader(h)
  {
    Field(h.hlit - 257, 5) + (Field(h.hdist - 1, 5) + (Field(h.hclen - 4, 4)
    + (ClenBits(h.clen, h.hclen) + RunsBits(h.clen, h.runs))))
  }

  lemma CodeLengthsDecode(h: Header, bits: seq<bit>, at: nat)
    requires ValidHeader(h) && Stands(bits, at, ClenBits(h.clen, h.hclen) + RunsBits(h.clen, h.runs))
    ensures CodeLengths(bits, at, h.hclen, h.hlit + h.hdist)
         == Ok(Lengths(Unrolled(h.clen, h.runs, []).value, at + 3 * h.hclen + |RunsBits(h.clen, h.runs)|))
  {
    hide Buildable, Expand, RunsBits, ClenBits, Unrolled, ClenPlace;
    StandsApart(bits, at, ClenBits(h.clen, h.hclen), RunsBits(h.clen, h.runs));
    ClenDecodes(h.clen, bits, at, h.hclen);
    assert ClenLengths(bits, at, h.hclen) == h.clen;
    ExpandDecodes(h.clen, bits, at + 3 * h.hclen, h.runs, [], h.hlit + h.hdist);
  }

  lemma HeaderDecodes(h: Header, bits: seq<bit>, at: nat)
    requires ValidHeader(h) && Stands(bits, at, HeaderBits(h))
    requires Buildable(HeaderLit(h)) && Buildable(HeaderDist(h))
    ensures Dynamic(bits, at) == Ok(Trees(HeaderLit(h), HeaderDist(h), at + |HeaderBits(h)|))
  {
    hide Buildable, CodeLengths, RunsBits, ClenBits, Unrolled, Field, Number, Pow2;
    Powers();
    var rest := ClenBits(h.clen, h.hclen) + RunsBits(h.clen, h.runs);
    StandsApart(bits, at, Field(h.hlit - 257, 5), Field(h.hdist - 1, 5) + (Field(h.hclen - 4, 4) + rest));
    StandsApart(bits, at + 5, Field(h.hdist - 1, 5), Field(h.hclen - 4, 4) + rest);
    StandsApart(bits, at + 10, Field(h.hclen - 4, 4), rest);
    FieldStands(bits, at, h.hlit - 257, 5);
    FieldStands(bits, at + 5, h.hdist - 1, 5);
    FieldStands(bits, at + 10, h.hclen - 4, 4);
    CodeLengthsDecode(h, bits, at + 14);
  }

  // Stored bytes.

  function DataBits(data: seq<u8>): (r: seq<bit>)
    ensures |r| == 8 * |data|
  {
    if data == [] then [] else DataBits(data[..|data| - 1]) + Field(data[|data| - 1], 8)
  }

  lemma {:induction false} DataDecodes(data: seq<u8>, bits: seq<bit>, at: nat)
    requires Stands(bits, at, DataBits(data))
    ensures at + 8 * |data| <= |bits| && Bytes(bits, at, |data|) == data
  {
    hide Number, Field;
    if data != [] {
      var k := |data| - 1;
      StandsApart(bits, at, DataBits(data[..k]), Field(data[k], 8));
      DataDecodes(data[..k], bits, at);
      assert Pow2(8) == 256;
      FieldStands(bits, at + 8 * k, data[k], 8);
      assert data == data[..k] + [data[k]];
    }
  }

  // Whole streams.

  /** A block: stored bytes after some padding, or tokens in the fixed or in described codes. */
  datatype Chunk =
    | StoredChunk(pad: seq<bit>, data: seq<u8>)
    | FixedChunk(tokens: seq<Token>)
    | DynamicChunk(header: Header, tokens: seq<Token>)

  predicate ValidChunk(c: Chunk, at: nat) {
    match c
    case StoredChunk(pad, data) => at + |pad| == NextBoundary(at) && |data| < 0x1_0000
    case FixedChunk(ts) => ValidTokens(FixedLit(), FixedDist(), ts)
    case DynamicChunk(h, ts) =>
      && ValidHeader(h) && Buildable(HeaderLit(h)) && Buildable(HeaderDist(h))
      && HasWord(HeaderLit(h), 256) && ValidTokens(HeaderLit(h), HeaderDist(h), ts)
  }

  function ChunkType(c: Chunk): nat {
    match c
    case StoredChunk(_, _) => 0
    case FixedChunk(_) => 1
    case DynamicChunk(_, _) => 2
  }

  function ChunkBits(c: Chunk, at: nat): seq<bit>
    requires ValidChunk(c, at)
  {
    match c
    case StoredChunk(pad, data) =>
      pad + (Half(|data|) + (Half(0xFFFF - |data|) + DataBits(data)))
    case FixedChunk(ts) =>
      FixedWords();
      TokensBits(FixedLit(), FixedDist(), ts)
    case DynamicChunk(h, ts) =>
      HeaderBits(h) + TokensBits(HeaderLit(h), HeaderDist(h), ts)
  }

  function ChunkOutput(c: Chunk, at: nat, out: seq<u8>): Result<seq<u8>>
    requires ValidChunk(c, at)
  {
    match c
    case StoredChunk(_, data) => Ok(out + data)
    case FixedChunk(ts) =>
      assert forall i :: 0 <= i < |ts| ==> ValidToken(FixedLit(), FixedDist(), ts[i]);
      Expanded(ts, out)
    case DynamicChunk(h, ts) =>
      assert forall i :: 0 <= i < |ts| ==> ValidToken(HeaderLit(h), HeaderDist(h), ts[i]);
      Expanded(ts, out)
  }

  lemma FixedWords()
    ensures HasWord(FixedLit(), 256)
  {
  }

  lemma StoredDecodes(bits: seq<bit>, at: nat, a: nat, data: seq<u8>, out: seq<u8>)
    requires a == NextBoundary(at) && |data| < 0x1_0000
    requires Stands(bits, a, Half(|data|)) && Stands(bits, a + 16, Half(0xFFFF - |data|))
    requires Stands(bits, a + 32, DataBits(data))
    ensures Stored(bits, at, out) == Ok(Output(out + data, a + 32 + 8 * |data|))
  {
    hide Number, Half, DataBits, NextBoundary, Stands, Stored, Bytes;
    HalfStands(bits, a, |data|);
    HalfStands(bits, a + 16, 0xFFFF - |data|);
    DataDecodes(data, bits, a + 32);
    StoredIs(bits, at, a, |data|, out);
  }

  lemma StoredIs(bits: seq<bit>, at: nat, a: nat, n: nat, out: seq<u8>)
    requires a == NextBoundary(at) && n < 0x1_0000 && a + 32 + 8 * n <= |bits|
    requires Number(bits[a..a + 16]) == n && Number(bits[a + 16..a + 32]) == 0xFFFF - n
    ensures Stored(bits, at, out) == Ok(Output(out + Bytes(bits, a + 32, n), a + 32 + 8 * n))
  {
    hide Number, Bytes, NextBoundary;
  }

  function Half(x: nat): (r: seq<bit>)
    ensures |r| == 16
  {
    Field(x, 16)
  }

  lemma HalfStands(bits: seq<bit>, at: nat, x: nat)
    requires Stands(bits, at, Half(x)) && x < 0x1_0000
    ensures at + 16 <= |bits| && Number(bits[at..at + 16]) == x
  {
    hide Stands, Number, Field;
    Pow2Add(8, 8);
    assert Pow2(8) == 256;
    FieldStands(bits, at, x, 16);
  }

  lemma ChunkDecodes(c: Chunk, bits: seq<bit>, at: nat, out: seq<u8>)
    requires ValidChunk(c, at) && Stands(bits, at, ChunkBits(c, at))
    ensures BlockOf(ChunkType(c), bits, at, out)
         == var o := ChunkOutput(c, at, out);
            if o.Err? then Err else Ok(Output(o.value, at + |ChunkBits(c, at)|))
  {
    match c {
      case StoredChunk(_, _) => StoredChunkDecodes(c, bits, at, out);
      case FixedChunk(_) => FixedChunkDecodes(c, bits, at, out);
      case DynamicChunk(_, _) => DynamicChunkDecodes(c, bits, at, out);
    }
  }

  lemma StoredChunkDecodes(c: Chunk, bits: seq<bit>, at: nat, out: seq<u8>)
    requires c.StoredChunk? && ValidChunk(c, at) && Stands(bits, at, ChunkBits(c, at))
    ensures BlockOf(ChunkType(c), bits, at, out)
         == var o := ChunkOutput(c, at, out);
            if o.Err? then Err else Ok(Output(o.value, at + |ChunkBits(c, at)|))
  {
    hide Stored, DataBits, Half, Field, Stands;
    StandsInFour(bits, at, c.pad, Half(|c.data|), Half(0xFFFF - |c.data|), DataBits(c.data));
    StoredDecodes(bits, at, at + |c.pad|, c.data, out);
  }

  lemma FixedChunkDecodes(c: Chunk, bits: seq<bit>, at: nat, out: seq<u8>)
    requires c.FixedChunk? && ValidChunk(c, at) && Stands(bits, at, ChunkBits(c, at))
    ensures BlockOf(ChunkType(c), bits, at, out)
         == var o := ChunkOutput(c, at, out);
            if o.Err? then Err else Ok(Output(o.value, at + |ChunkBits(c, at)|))
  {
    hide Buildable, TokensBits, Expanded, Block, FixedLit, FixedDist, Stands;
    FixedTreesBuild();
    FixedWords();
    BlockDecodes(FixedLit(), FixedDist(), bits, at, c.tokens, out);
  }

  lemma DynamicChunkDecodes(c: Chunk, bits: seq<bit>, at: nat, out: seq<u8>)
    requires c.DynamicChunk? && ValidChunk(c, at) && Stands(bits, at, ChunkBits(c, at))
    ensures BlockOf(ChunkType(c), bits, at, out)
         == var o := ChunkOutput(c, at, out);
            if o.Err? then Err else Ok(Output(o.value, at + |ChunkBits(c, at)|))
  {
    hide Buildable, TokensBits, Expanded, Block, Dynamic, HeaderBits, ValidHeader, Stands;
    var h := c.header;
    StandsApart(bits, at, HeaderBits(h), TokensBits(HeaderLit(h), HeaderDist(h), c.tokens));
    HeaderDecodes(h, bits, at);
    BlockDecodes(HeaderLit(h), HeaderDist(h), bits, at + |HeaderBits(h)|, c.tokens, out);
  }

  predicate ValidStream(cs: seq<Chunk>, at: nat)
    decreases |cs|
  {
    && cs != [] && ValidChunk(cs[0], at + 3)
    && (|cs| > 1 ==> ValidStream(cs[1..], at + 3 + |ChunkBits(cs[0], at + 3)|))
  }

  /** The blocks of a stream, each after its final-block bit and its type; only the last one is marked final. */
  function StreamBits(cs: seq<Chunk>, at: nat): seq<bit>
    requires ValidStream(cs, at)
    decreases |cs|
  {
    hide ChunkBits, ValidChunk;
    var c := ChunkBits(cs[0], at + 3);
    if |cs| == 1 then [1] + (Field(ChunkType(cs[0]), 2) + c)
    else [0] + (Field(ChunkType(cs[0]), 2) + (c + StreamBits(cs[1..], at + 3 + |c|)))
  }

  function StreamOutput(cs: seq<Chunk>, at: nat, out: seq<u8>): Result<seq<u8>>
    requires ValidStream(cs, at)
    decreases |cs|
  {
    hide ChunkBits, ValidChunk, ChunkOutput;
    var o := ChunkOutput(cs[0], at + 3, out);
    if o.Err? || |cs| == 1 then o
    else StreamOutput(cs[1..], at + 3 + |ChunkBits(cs[0], at + 3)|, o.value)
  }

  /** A stream is its first block and the stream of the others. */
  lemma StreamParts(cs: seq<Chunk>, at: nat, out: seq<u8>)
    requires ValidStream(cs, at)
    ensures cs != [] && ValidChunk(cs[0], at + 3) && ChunkType(cs[0]) < 3
    ensures var c, t := ChunkBits(cs[0], at + 3), Field(ChunkType(cs[0]), 2);
            var o := ChunkOutput(cs[0], at + 3, out);
            && (|cs| == 1 ==> StreamBits(cs, at) == [1] + (t + c) && StreamOutput(cs, at, out) == o)
            && (|cs| > 1 ==>
                  && ValidStream(cs[1..], at + 3 + |c|)
                  && StreamBits(cs, at) == [0] + (t + (c + StreamBits(cs[1..], at + 3 + |c|)))
                  && StreamOutput(cs, at, out) == if o.Err? then o else StreamOutput(cs[1..], at + 3 + |c|, o.value))
  {
    hide ValidChunk, ChunkBits, ChunkOutput, Field;
  }

  /** Inflating the bits of a stream gives exactly what its blocks stand for, and ends where they end; it fails
      exactly when some match reaches back before the output. */
  lemma {:induction false} InflateDecodes(cs: seq<Chunk>, bits: seq<bit>, at: nat, out: seq<u8>)
    requires ValidStream(cs, at) && Stands(bits, at, StreamBits(cs, at))
    ensures Inflate(bits, at, out)
         == var o := StreamOutput(cs, at, out);
            if o.Err? then Err else Ok(Output(o.value, at + |StreamBits(cs, at)|))
    decreases |cs|
  {
    hide ValidStream, StreamBits, StreamOutput, ValidChunk, ChunkBits, ChunkOutput, ChunkType, BlockOf, Number, Field,
         Stands;
    StreamParts(cs, at, out);
    var c, t := ChunkBits(cs[0], at + 3), ChunkType(cs[0]);
    var rest := if |cs| == 1 then c else c + StreamBits(cs[1..], at + 3 + |c|);
    var final := if |cs| == 1 then [1] else [0];
    StandsApart(bits, at, final, Field(t, 2) + rest);
    StandsApart(bits, at + 1, Field(t, 2), rest);
    OneField(bits, at, final);
    TwoBitField(bits, at + 1, t);
    var o := ChunkOutput(cs[0], at + 3, out);
    if |cs| == 1 {
      ChunkDecodes(cs[0], bits, at + 3, out);
    } else {
      StandsApart(bits, at + 3, c, StreamBits(cs[1..], at + 3 + |c|));
      ChunkDecodes(cs[0], bits, at + 3, out);
      if o.Ok? {
        InflateDecodes(cs[1..], bits, at + 3 + |c|, o.value);
      }
    }
  }

  lemma OneField(bits: seq<bit>, at: nat, piece: seq<bit>)
    requires |piece| == 1 && Stands(bits, at, piece)
    ensures Number(bits[at..at + 1]) == piece[0]
  {
    assert piece[1..] == [] && Number(piece) == piece[0] + 2 * Number(piece[1..]);
  }

  lemma TwoBitField(bits: seq<bit>, at: nat, t: nat)
    requires t < 3 && Stands(bits, at, Field(t, 2))
    ensures Number(bits[at..at + 2]) == t
  {
    assert Pow2(2) == 4;
    FieldStands(bits, at, t, 2);
  }
}
