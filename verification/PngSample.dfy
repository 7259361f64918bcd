/** A PNG file byte for byte, and the one pixel it shows: the layout of headers and chunks, the order of bytes and bits,
    the fixed codes and the colour cube, all on one known file. */
module PngSample {
  import opened Bits
  import opened Wrappers
  import opened PngBits
  import opened PngHuffman
  import opened PngDeflate
  import opened PngEncode
  import opened PngScale
  import opened PngSink
  import opened PngDecode
  import opened PngChunks
  import T = PngTables

  /** One red pixel, in 8-bit RGB, as zlib compresses it. */
  function RedPixel(): seq<u8> {
    [0x89, 0x50, 0x4E, 0x47, 0x0D, 0x0A, 0x1A, 0x0A]
    + ([0x00, 0x00, 0x00, 0x0D, 0x49, 0x48, 0x44, 0x52, 0x00, 0x00, 0x00, 0x01, 0x00, 0x00, 0x00, 0x01, 0x08, 0x02,
        0x00, 0x00, 0x00, 0x90, 0x77, 0x53, 0xDE]
    + ([0x00, 0x00, 0x00, 0x0C, 0x49, 0x44, 0x41, 0x54, 0x78, 0x9C, 0x63, 0xF8, 0xCF, 0xC0, 0x00, 0x00, 0x03, 0x01,
        0x01, 0x00, 0xC9, 0xFE, 0x92, 0xEF]
    + [0x00, 0x00, 0x00, 0x00, 0x49, 0x45, 0x4E, 0x44, 0xAE, 0x42, 0x60, 0x82]))
  }

  const DATA: seq<u8> := [0x78, 0x9C, 0x63, 0xF8, 0xCF, 0xC0, 0x00, 0x00, 0x03, 0x01, 0x01, 0x00]

  const DATA_CHUNK := FileChunk([0x49, 0x44, 0x41, 0x54], DATA, [0xC9, 0xFE, 0x92, 0xEF])
  const END_CHUNK := FileChunk([0x49, 0x45, 0x4E, 0x44], [], [0xAE, 0x42, 0x60, 0x82])
  const RED := File(1, 1, 2, [0x90, 0x77, 0x53, 0xDE], [DATA_CHUNK], END_CHUNK, [])

  lemma OneBigEndian()
    ensures Be32Bytes(1) == [0, 0, 0, 1] && Be32Bytes(13) == [0, 0, 0, 13]
    ensures Be32Bytes(12) == [0, 0, 0, 12] && Be32Bytes(0) == [0, 0, 0, 0]
  {
  }

  lemma ValidRed()
    ensures ValidFile(RED) && DataOf(RED.body) == DATA
  {
    assert RED.body[1..] == [];
    assert DATA + [] == DATA;
    assert BodyChunk(DATA_CHUNK);
  }

  lemma HeadBytes()
    ensures ChunkBytes(HeadChunk(RED)) ==
            [0x00, 0x00, 0x00, 0x0D, 0x49, 0x48, 0x44, 0x52, 0x00, 0x00, 0x00, 0x01, 0x00, 0x00, 0x00, 0x01, 0x08, 0x02,
             0x00, 0x00, 0x00, 0x90, 0x77, 0x53, 0xDE]
  {
    hide Be32Bytes;
    OneBigEndian();
  }

  lemma DataChunkBytes()
    ensures ChunkBytes(DATA_CHUNK) ==
            [0x00, 0x00, 0x00, 0x0C, 0x49, 0x44, 0x41, 0x54, 0x78, 0x9C, 0x63, 0xF8, 0xCF, 0xC0, 0x00, 0x00, 0x03, 0x01,
             0x01, 0x00, 0xC9, 0xFE, 0x92, 0xEF]
  {
    hide Be32Bytes;
    OneBigEndian();
  }

  lemma EndChunkBytes()
    ensures ChunkBytes(END_CHUNK) == [0x00, 0x00, 0x00, 0x00, 0x49, 0x45, 0x4E, 0x44, 0xAE, 0x42, 0x60, 0x82]
  {
    hide Be32Bytes;
    OneBigEndian();
  }

  lemma RedBytes()
    requires ValidFile(RED)
    ensures FileBytes(RED) == RedPixel()
  {
    hide ChunkBytes, ValidFile;
    HeadBytes();
    DataChunkBytes();
    EndChunkBytes();
    assert RED.body[1..] == [];
    assert ChunksBytes(RED.body) == ChunkBytes(DATA_CHUNK) + [];
    assert ChunkBytes(END_CHUNK) + [] == ChunkBytes(END_CHUNK);
  }

  // The compressed data.

  const TOKENS: seq<Token> := [Literal(0), Literal(255), Literal(0), Literal(0)]

  /** The bits of a byte, least significant bit first. */
  lemma ByteBits(data: seq<u8>, k: nat)
    requires k < |data|
    ensures var b := data[k];
            BitsOf(data)[8 * k..8 * k + 8] ==
            [b % 2, b / 2 % 2, b / 4 % 2, b / 8 % 2, b / 16 % 2, b / 32 % 2, b / 64 % 2, b / 128 % 2]
  {
    hide BitsOf, Pow2;
    Powers();
    BitAt(data, k, 0); BitAt(data, k, 1); BitAt(data, k, 2); BitAt(data, k, 3);
    BitAt(data, k, 4); BitAt(data, k, 5); BitAt(data, k, 6); BitAt(data, k, 7);
    assert data[k] / 1 == data[k];
  }

  lemma CodewordStep(code: nat, len: nat)
    ensures Codeword(code, len + 1) == Codeword(code / 2, len) + [code % 2]
  {
  }

  lemma FourMore(code: nat, len: nat)
    ensures Codeword(code, len + 4) ==
            Codeword(code / 16, len) + [code / 8 % 2, code / 4 % 2, code / 2 % 2, code % 2]
  {
    hide Codeword;
    CodewordStep(code, len + 3);
    CodewordStep(code / 2, len + 2);
    CodewordStep(code / 4, len + 1);
    CodewordStep(code / 8, len);
    assert code / 2 / 2 == code / 4 && code / 4 / 2 == code / 8 && code / 8 / 2 == code / 16;
  }

  lemma SmallWord()
    ensures Codeword(0x30, 8) == [0, 0, 1, 1, 0, 0, 0, 0]
  {
    assert Codeword(0, 0) == [];
    hide Codeword;
    FourMore(3, 0);
    FourMore(0x30, 4);
  }

  lemma LastWord()
    ensures Codeword(0x1FF, 9) == [1, 1, 1, 1, 1, 1, 1, 1, 1]
  {
    assert Codeword(0, 0) == [];
    hide Codeword;
    CodewordStep(1, 0);
    FourMore(31, 1);
    FourMore(511, 5);
  }

  lemma EndWord()
    ensures Codeword(0, 7) == [0, 0, 0, 0, 0, 0, 0]
  {
    assert Codeword(0, 0) == [];
    hide Codeword;
    CodewordStep(0, 0);
    CodewordStep(0, 1);
    CodewordStep(0, 2);
    FourMore(0, 3);
  }

  lemma Words()
    ensures Word(FixedLit(), 0) == [0, 0, 1, 1, 0, 0, 0, 0]
    ensures Word(FixedLit(), 255) == [1, 1, 1, 1, 1, 1, 1, 1, 1]
    ensures Word(FixedLit(), 256) == [0, 0, 0, 0, 0, 0, 0]
  {
    hide FixedLit, Code, Codeword;
    FixedCodes(0);
    FixedCodes(255);
    FixedCodes(256);
    FixedLength(0);
    FixedLength(255);
    FixedLength(256);
    SmallWord();
    LastWord();
    EndWord();
  }

  lemma TokensValid()
    ensures ValidTokens(FixedLit(), FixedDist(), TOKENS) && HasWord(FixedLit(), 256)
  {
    hide FixedLit, FixedDist, ValidToken;
    T.LiteralValid(0);
    T.LiteralValid(255);
    FixedWords();
  }

  lemma TokenWords()
    requires ValidTokens(FixedLit(), FixedDist(), TOKENS) && HasWord(FixedLit(), 256)
    ensures TokensBits(FixedLit(), FixedDist(), TOKENS) ==
            Word(FixedLit(), 0) + (Word(FixedLit(), 255) + (Word(FixedLit(), 0) + (Word(FixedLit(), 0)
            + Word(FixedLit(), 256))))
  {
    hide FixedLit, FixedDist, Word, HasWord;
    assert TOKENS[1..] == [Literal(255), Literal(0), Literal(0)] && TOKENS[2..] == [Literal(0), Literal(0)];
    assert TOKENS[1..][1..] == TOKENS[2..] && TOKENS[2..][1..] == [Literal(0)] && [Literal(0)][1..] == [];
    assert TokensBits(FixedLit(), FixedDist(), [Literal(0)]) == Word(FixedLit(), 0) + Word(FixedLit(), 256);
    assert TokensBits(FixedLit(), FixedDist(), TOKENS[2..]) ==
           Word(FixedLit(), 0) + TokensBits(FixedLit(), FixedDist(), [Literal(0)]);
  }

  lemma TypeBits()
    ensures Field(1, 2) == [1, 0]
  {
    assert Field(1, 2) == [1] + Field(0, 1) && Field(0, 1) == [0] + Field(0, 0);
  }

  lemma RedStream()
    ensures ValidStream([FixedChunk(TOKENS)], 16)
    ensures StreamBits([FixedChunk(TOKENS)], 16) ==
            [1] + ([1, 0] + (Word(FixedLit(), 0) + (Word(FixedLit(), 255) + (Word(FixedLit(), 0) + (Word(FixedLit(), 0)
            + Word(FixedLit(), 256))))))
  {
    hide TokensBits, FixedLit, FixedDist, Field, ValidTokens, Word, HasWord;
    TokensValid();
    TypeBits();
    TokenWords();
  }

  lemma RedOutput()
    requires ValidStream([FixedChunk(TOKENS)], 16)
    ensures StreamOutput([FixedChunk(TOKENS)], 16, []) == Ok([0, 255, 0, 0])
  {
    hide FixedLit, FixedDist, ValidToken;
    var a, b, c: seq<u8> := [0], [0, 255], [0, 255, 0];
    assert TOKENS[1..] == [Literal(255), Literal(0), Literal(0)] && TOKENS[1..][1..] == [Literal(0), Literal(0)];
    assert [Literal(0), Literal(0)][1..] == [Literal(0)] && [Literal(0)][1..] == [];
    assert [] + [0] == a && a + [255] == b && b + [0] == c && c + [0] == [0, 255, 0, 0];
    assert Expanded([Literal(0)], c) == Ok([0, 255, 0, 0]);
    assert Expanded([Literal(0), Literal(0)], b) == Expanded([Literal(0)], c);
  }

  lemma StandsTogether(bits: seq<bit>, at: nat, a: seq<bit>, b: seq<bit>)
    requires Stands(bits, at, a) && Stands(bits, at + |a|, b)
    ensures Stands(bits, at, a + b)
  {
    assert bits[at..at + |a + b|] == bits[at..at + |a|] + bits[at + |a|..at + |a| + |b|];
  }

  /** A piece across two bytes. */
  lemma StandsAcross(bits: seq<bit>, at: nat, a: seq<bit>, b: seq<bit>, k: nat, n: nat)
    requires |a| == 8 && |b| == 8 && Stands(bits, at, a) && Stands(bits, at + 8, b) && k + n <= 16
    ensures Stands(bits, at + k, (a + b)[k..k + n])
  {
    StandsTogether(bits, at, a, b);
    var w := bits[at..at + |a + b|];
    assert bits[at + k..at + k + n] == w[k..k + n];
  }

  lemma DataBytes(bits: seq<bit>)
    requires bits == BitsOf(DATA)
    ensures Stands(bits, 16, [1, 1, 0, 0, 0, 1, 1, 0]) && Stands(bits, 24, [0, 0, 0, 1, 1, 1, 1, 1])
    ensures Stands(bits, 32, [1, 1, 1, 1, 0, 0, 1, 1]) && Stands(bits, 40, [0, 0, 0, 0, 0, 0, 1, 1])
    ensures Stands(bits, 48, [0, 0, 0, 0, 0, 0, 0, 0]) && Stands(bits, 56, [0, 0, 0, 0, 0, 0, 0, 0])
  {
    hide BitsOf;
    ByteBits(DATA, 2); ByteBits(DATA, 3); ByteBits(DATA, 4); ByteBits(DATA, 5); ByteBits(DATA, 6); ByteBits(DATA, 7);
  }

  lemma DataBitsAre()
    ensures Stands(BitsOf(DATA), 16, StreamBits([FixedChunk(TOKENS)], 16))
  {
    hide BitsOf, Stands, Word, FixedLit, StreamBits;
    var bits := BitsOf(DATA);
    RedStream();
    Words();
    DataBytes(bits);
    FirstPieces(bits);
    LastPieces(bits);
    var w0, w1, w2 := Word(FixedLit(), 0), Word(FixedLit(), 255), Word(FixedLit(), 256);
    StandsTogether(bits, 44, w0, w2);
    StandsTogether(bits, 36, w0, w0 + w2);
    StandsTogether(bits, 27, w1, w0 + (w0 + w2));
    StandsTogether(bits, 19, w0, w1 + (w0 + (w0 + w2)));
    StandsTogether(bits, 17, [1, 0], w0 + (w1 + (w0 + (w0 + w2))));
    StandsTogether(bits, 16, [1], [1, 0] + (w0 + (w1 + (w0 + (w0 + w2)))));
  }

  lemma FirstPieces(bits: seq<bit>)
    requires Stands(bits, 16, [1, 1, 0, 0, 0, 1, 1, 0]) && Stands(bits, 24, [0, 0, 0, 1, 1, 1, 1, 1])
    requires Stands(bits, 32, [1, 1, 1, 1, 0, 0, 1, 1])
    ensures Stands(bits, 16, [1]) && Stands(bits, 17, [1, 0]) && Stands(bits, 19, [0, 0, 1, 1, 0, 0, 0, 0])
    ensures Stands(bits, 27, [1, 1, 1, 1, 1, 1, 1, 1, 1])
  {
    hide Stands;
    var a, b, c: seq<bit> := [1, 1, 0, 0, 0, 1, 1, 0], [0, 0, 0, 1, 1, 1, 1, 1], [1, 1, 1, 1, 0, 0, 1, 1];
    StandsAcross(bits, 16, a, b, 0, 1);
    StandsAcross(bits, 16, a, b, 1, 2);
    StandsAcross(bits, 16, a, b, 3, 8);
    StandsAcross(bits, 24, b, c, 3, 9);
    assert (a + b)[0..1] == [1] && (a + b)[1..3] == [1, 0] && (a + b)[3..11] == [0, 0, 1, 1, 0, 0, 0, 0];
    assert (b + c)[3..12] == [1, 1, 1, 1, 1, 1, 1, 1, 1];
  }

  lemma LastPieces(bits: seq<bit>)
    requires Stands(bits, 32, [1, 1, 1, 1, 0, 0, 1, 1]) && Stands(bits, 40, [0, 0, 0, 0, 0, 0, 1, 1])
    requires Stands(bits, 48, [0, 0, 0, 0, 0, 0, 0, 0]) && Stands(bits, 56, [0, 0, 0, 0, 0, 0, 0, 0])
    ensures Stands(bits, 36, [0, 0, 1, 1, 0, 0, 0, 0]) && Stands(bits, 44, [0, 0, 1, 1, 0, 0, 0, 0])
    ensures Stands(bits, 52, [0, 0, 0, 0, 0, 0, 0])
  {
    hide Stands;
    var c, d, e: seq<bit> := [1, 1, 1, 1, 0, 0, 1, 1], [0, 0, 0, 0, 0, 0, 1, 1], [0, 0, 0, 0, 0, 0, 0, 0];
    StandsAcross(bits, 32, c, d, 4, 8);
    StandsAcross(bits, 40, d, e, 4, 8);
    StandsAcross(bits, 48, e, e, 4, 7);
    assert (c + d)[4..12] == [0, 0, 1, 1, 0, 0, 0, 0] && (d + e)[4..12] == [0, 0, 1, 1, 0, 0, 0, 0];
    assert (e + e)[4..11] == [0, 0, 0, 0, 0, 0, 0];
  }

  /** On whatever place of the screen, the file shows one pixel of palette entry 180, the full red of the cube. */
  lemma RedPixelShown(x: int, y: int, idx: nat)
    requires 0 <= x < 320 && 0 <= y < 200 && idx < 64000
    ensures Displays(RedPixel(), x, y)
    ensures ShownColour(RedPixel(), x, y, idx) == if idx == 320 * y + x then 180 else 0
  {
    hide ValidFile, FileBytes, StreamBits, ValidStream, Encodes, Displays, ShownColour, DestSize;
    ValidRed();
    RedBytes();
    var p := FilePicture(RED, x, y);
    RedPicture(x, y);
    RedEncoded(x, y);
    var at := 320 * y + x;
    DivModUnique(at, 320, y, x);
    FileShown(RED, x, y, [[255, 0, 0]], [0], [FixedChunk(TOKENS)], at);
    RedColour(p, at);
    if idx != at {
      assert !InPicture(p, idx) by {
        assert idx == 320 * (idx / 320) + idx % 320;
      }
      NothingElse(x, y, idx);
    }
  }

  lemma RedPicture(x: int, y: int)
    requires 0 <= x < 320 && 0 <= y < 200 && ValidFile(RED)
    ensures FilePicture(RED, x, y) == Picture(1, 1, 3, 2, 4, x, y, 1, 1)
  {
    hide ValidFile;
  }

  lemma RedEncoded(x: int, y: int)
    requires 0 <= x < 320 && 0 <= y < 200 && ValidFile(RED)
    ensures Encodes(FilePicture(RED, x, y), [[255, 0, 0]], [0], [FixedChunk(TOKENS)], DATA)
  {
    hide ValidFile, StreamBits, StreamOutput, ValidStream, FilePicture, Stands, BitsOf, AllScanlines, ImageRows,
         ZlibHeader, ValidPicture, FixedLit, Word;
    RedPicture(x, y);
    RedStream();
    RedOutput();
    DataBitsAre();
    RedRows(FilePicture(RED, x, y));
    RedScanlines(FilePicture(RED, x, y));
    KnownHeader();
  }

  lemma KnownHeader()
    ensures |DATA| == 12 && DATA[0] == 0x78 && DATA[1] == 0x9C && ZlibHeader(0x78, 0x9C)
  {
  }

  lemma RedRows(p: Picture)
    requires p.height == 1 && p.stride == 4
    ensures ImageRows(p, [[255, 0, 0]], [0])
  {
  }

  lemma RedScanlines(p: Picture)
    requires ValidPicture(p) && p.width == 1 && p.height == 1 && p.bpp == 3 && p.stride == 4
    requires ImageRows(p, [[255, 0, 0]], [0])
    ensures AllScanlines(p, [[255, 0, 0]], [0]) == [0, 255, 0, 0]
  {
  }

  lemma RedColour(p: Picture, at: nat)
    requires ValidPicture(p) && p.width == 1 && p.height == 1 && p.bpp == 3 && p.colorType == 2 && p.dw == 1 && p.dh == 1
    requires ImageRows(p, [[255, 0, 0]], [0]) && InPicture(p, at)
    ensures ImageColour(p, [[255, 0, 0]], [0], at) == 180
  {
    hide Scale;
    RowInside(p, 0);
    ScaledInside(0, 1, 1);
  }

  lemma NothingElse(x: int, y: int, idx: nat)
    requires 0 <= x < 320 && 0 <= y < 200 && Displays(RedPixel(), x, y)
    requires ValidFile(RED) && TaskOf(RedPixel(), x, y) == OnScreen(FilePicture(RED, x, y))
    requires !InPicture(FilePicture(RED, x, y), idx)
    ensures ShownColour(RedPixel(), x, y, idx) == 0
  {
    hide ValidFile, FilePicture, TaskOf, RedPixel, InPicture, Displays;
  }
}
