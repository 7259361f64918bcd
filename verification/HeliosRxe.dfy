/** The RXE file format: packing a compiled program, loading it, and stripping symbol sections. */
module HeliosRxe {
  import opened Bits
  import opened Wrappers
  import opened HeliosCode
  import opened HeliosAst

  const RXE_VERSION: u8 := 0x06
  const RXE_ARCH_I686: u8 := 0x86
  const SECTION_CODE: u8 := 0x01
  const SECTION_DATA: u8 := 0x02
  const SECTION_SYM: u8 := 0x03
  const SECTION_END: u8 := 0xFF
  const HEADER_SIZE := 32

  function Magic(): seq<u8> {
    [0x52, 0x41, 0x44, 0x49, 0x55, 0x4D, 0x5F, 0x58]
  }

  function AuthorTag(): seq<u8> {
    [0x73, 0x63, 0x70, 0x5F, 0x32, 0x38, 0x30, 0x31]
  }

  /** The file header; sizes are cut to 32 bits. */
  function Header(entry: nat, codeSize: nat, dataSize: nat): (r: seq<u8>)
    ensures |r| == HEADER_SIZE
  {
    Magic() + [RXE_VERSION, RXE_ARCH_I686] + Le32(entry) + Le32(codeSize) + Le32(dataSize) + Le16(0) + AuthorTag()
  }

  function Word(d: seq<u8>, i: nat): u32
    requires i + 4 <= |d|
  {
    FromLe32(d[i], d[i + 1], d[i + 2], d[i + 3])
  }

  function Half(d: seq<u8>, i: nat): u16
    requires i + 2 <= |d|
  {
    FromLe16(d[i], d[i + 1])
  }

  // The constant pool.

  function Strings(consts: seq<seq<u8>>): seq<u8> {
    if consts == [] then [] else Le16(|consts[0]|) + consts[0] + Strings(consts[1..])
  }

  function PoolBytes(consts: seq<seq<u8>>): seq<u8> {
    Le16(|consts|) + Strings(consts)
  }

  /** Up to count strings from position pos on; a string that does not fit ends the pool. */
  function StringsAt(data: seq<u8>, pos: nat, count: nat): (r: seq<seq<u8>>)
    ensures |r| <= count
    decreases count
  {
    if count == 0 || pos + 2 > |data| then [] else
    var len := Half(data, pos);
    if pos + 2 + len > |data| then []
    else [data[pos + 2..pos + 2 + len]] + StringsAt(data, pos + 2 + len, count - 1)
  }

  function ParsePool(data: seq<u8>): seq<seq<u8>> {
    if |data| < 2 then [] else StringsAt(data, 2, Half(data, 0))
  }

  method ParseConstPool(data: seq<u8>) returns (out: seq<seq<u8>>)
    ensures out == ParsePool(data)
  {
    hide Half;
    out := [];
    if |data| < 2 {
      return;
    }
    var count := Half(data, 0);
    var pos: nat := 2;
    for i := 0 to count
      invariant out + StringsAt(data, pos, count - i) == ParsePool(data)
    {
      if pos + 2 > |data| {
        break;
      }
      var len := Half(data, pos);
      pos := pos + 2;
      if pos + len > |data| {
        break;
      }
      ghost var before, rest := out, StringsAt(data, pos + len, count - i - 1);
      out := out + [data[pos..pos + len]];
      assert out + rest == before + ([data[pos..pos + len]] + rest);
      pos := pos + len;
    }
  }

  lemma LenAt(d: seq<u8>, pos: nat, x: nat, tail: seq<u8>)
    requires pos <= |d| && d[pos..] == Le16(x) + tail
    ensures pos + 2 <= |d| && Half(d, pos) == x % 0x1_0000 && d[pos + 2..] == tail
  {
    hide Le16;
    assert d[pos] == d[pos..][0] && d[pos + 1] == d[pos..][1];
    assert d[pos + 2..] == d[pos..][2..];
    LengthHalf(x);
  }

  lemma LengthHalf(x: nat)
    ensures FromLe16(Le16(x)[0], Le16(x)[1]) == x % 0x1_0000
  {
    DivModUnique(x, 0x1_0000, x / 0x100 / 0x100, x % 0x100 + 0x100 * (x / 0x100 % 0x100));
  }

  lemma {:induction false} StringsParse(data: seq<u8>, pos: nat, consts: seq<seq<u8>>)
    requires pos <= |data| && data[pos..] == Strings(consts)
    requires forall i :: 0 <= i < |consts| ==> |consts[i]| < 0x1_0000
    ensures StringsAt(data, pos, |consts|) == consts
    decreases |consts|
  {
    hide Half;
    if consts != [] {
      var c := consts[0];
      assert Strings(consts) == Le16(|c|) + (c + Strings(consts[1..]));
      LenAt(data, pos, |c|, c + Strings(consts[1..]));
      var p := pos + 2;
      assert data[p..p + |c|] == data[p..][..|c|] == c;
      assert data[p + |c|..] == data[p..][|c|..];
      StringsParse(data, p + |c|, consts[1..]);
    }
  }

  lemma {:induction false} StringsShort(data: seq<u8>, pos: nat, count: nat)
    ensures forall i :: 0 <= i < |StringsAt(data, pos, count)| ==> |StringsAt(data, pos, count)[i]| < 0x1_0000
    decreases count
  {
    if count > 0 && pos + 2 <= |data| {
      StringsShort(data, pos + 2 + Half(data, pos), count - 1);
    }
  }

  /** Parsing the packed pool gives the constants back exactly when their number and lengths fit 16 bits. */
  lemma PoolRoundTrip(consts: seq<seq<u8>>)
    ensures ParsePool(PoolBytes(consts)) == consts <==>
            |consts| < 0x1_0000 && forall i :: 0 <= i < |consts| ==> |consts[i]| < 0x1_0000
  {
    var d := PoolBytes(consts);
    assert d[0..] == d;
    LenAt(d, 0, |consts|, Strings(consts));
    StringsShort(d, 2, Half(d, 0));
    if |consts| < 0x1_0000 && forall i :: 0 <= i < |consts| ==> |consts[i]| < 0x1_0000 {
      StringsParse(d, 2, consts);
    }
  }

  /** A single constant comes back cut to its length modulo 2^16. */
  lemma ConstIsCut(c: seq<u8>)
    ensures ParsePool(PoolBytes([c])) == [c[..|c| % 0x1_0000]]
  {
    hide Half;
    var d := PoolBytes([c]);
    var n := |c| % 0x1_0000;
    assert Strings([c]) == Le16(|c|) + (c + Strings([]));
    assert d[0..] == Le16(1) + Strings([c]);
    LenAt(d, 0, 1, Strings([c]));
    LenAt(d, 2, |c|, c + Strings([]));
    assert d[4..4 + n] == d[4..][..n] == c[..n];
    assert StringsAt(d, 2, 1) == [d[4..4 + n]] + StringsAt(d, 4 + n, 0);
  }

  /** A constant of 65536 bytes comes back empty. */
  lemma LongConstLost(c: seq<u8>)
    requires |c| == 0x1_0000
    ensures ParsePool(PoolBytes([c])) == [[]]
  {
    ConstIsCut(c);
  }

  // Sections.

  datatype Section = Section(kind: u8, body: seq<u8>)

  predicate ValidSections(ss: seq<Section>) {
    forall i :: 0 <= i < |ss| ==> ss[i].kind != SECTION_END && |ss[i].body| < 0x1_0000_0000
  }

  function SectionBytes(s: Section): (r: seq<u8>)
    ensures |r| == 5 + |s.body|
  {
    [s.kind] + Le32(|s.body|) + s.body
  }

  function SectionsBytes(ss: seq<Section>): seq<u8> {
    if ss == [] then [] else SectionBytes(ss[0]) + SectionsBytes(ss[1..])
  }

  /** A file: header, sections, end mark, and anything after it. */
  function File(header: seq<u8>, ss: seq<Section>, rest: seq<u8>): seq<u8> {
    header + (SectionsBytes(ss) + ([SECTION_END] + rest))
  }

  function PackRxe(code: seq<u8>, consts: seq<seq<u8>>, entry: nat): seq<u8> {
    var data := PoolBytes(consts);
    File(Header(entry, |code|, |data|), [Section(SECTION_CODE, code), Section(SECTION_DATA, data)], [])
  }

  method Pack(code: seq<u8>, consts: seq<seq<u8>>, entry: nat) returns (out: seq<u8>)
    ensures out == PackRxe(code, consts, entry)
  {
    hide Header, Le32;
    var data := Le16(|consts|);
    for i := 0 to |consts|
      invariant data + Strings(consts[i..]) == PoolBytes(consts)
    {
      ghost var before, rest := data, consts[i..];
      assert rest[1..] == consts[i + 1..];
      data := data + Le16(|consts[i]|);
      data := data + consts[i];
      assert data + Strings(rest[1..]) == before + (Le16(|consts[i]|) + consts[i] + Strings(rest[1..]));
    }
    assert data == PoolBytes(consts);
    out := Header(entry, |code|, |data|);
    out := out + [SECTION_CODE] + Le32(|code|) + code;
    out := out + [SECTION_DATA] + Le32(|data|) + data;
    out := out + [SECTION_END];
    var a, b := Section(SECTION_CODE, code), Section(SECTION_DATA, data);
    assert [a, b][1..] == [b] && [b][1..] == [];
    assert SectionsBytes([b]) == SectionBytes(b) + SectionsBytes([]);
    assert SectionsBytes([a, b]) == SectionBytes(a) + SectionBytes(b);
    assert out == File(Header(entry, |code|, |data|), [a, b], []);
  }

  /** What the loader has found so far. */
  datatype Loaded = Loaded(code: seq<u8>, data: seq<u8>)

  function Take(l: Loaded, kind: u8, body: seq<u8>): Loaded {
    if kind == SECTION_CODE then l.(code := body) else if kind == SECTION_DATA then l.(data := body) else l
  }

  /** Walking the sections from pos on; a section that does not fit ends the walk. */
  function Walk(d: seq<u8>, pos: nat, l: Loaded): Loaded
    decreases |d| - pos
  {
    if pos >= |d| || d[pos] == SECTION_END || pos + 5 > |d| then l else
    var len := Word(d, pos + 1);
    if pos + 5 + len > |d| then l
    else Walk(d, pos + 5 + len, Take(l, d[pos], d[pos + 5..pos + 5 + len]))
  }

  function Validate(d: seq<u8>): Option<u32> {
    if |d| < HEADER_SIZE || d[..8] != Magic() || (d[8] != RXE_VERSION && d[8] != 0x05) || d[9] != RXE_ARCH_I686
    then None else Some(Word(d, 10))
  }

  datatype Executable = Executable(code: seq<u8>, consts: seq<seq<u8>>, entry: u32)

  /** What is run when a file is executed. */
  function Load(d: seq<u8>): Option<Executable> {
    var entry := Validate(d);
    if entry.None? then None else
    var l := Walk(d, HEADER_SIZE, Loaded([], []));
    Some(Executable(l.code, ParsePool(l.data), entry.value))
  }

  method LoadRxe(rxe: seq<u8>) returns (r: Option<Executable>)
    ensures r == Load(rxe)
  {
    hide Word, ParsePool;
    var entry := Validate(rxe);
    if entry.None? {
      return None;
    }
    var pos, code, data := HEADER_SIZE, [], [];
    while pos < |rxe|
      invariant Walk(rxe, pos, Loaded(code, data)) == Walk(rxe, HEADER_SIZE, Loaded([], []))
      decreases |rxe| - pos
    {
      var sec := rxe[pos];
      if sec == SECTION_END {
        break;
      }
      if pos + 1 + 4 > |rxe| {
        break;
      }
      var len := Word(rxe, pos + 1);
      if pos + 5 + len > |rxe| {
        break;
      }
      if sec == SECTION_CODE {
        code := rxe[pos + 5..pos + 5 + len];
      } else if sec == SECTION_DATA {
        data := rxe[pos + 5..pos + 5 + len];
      }
      pos := pos + 5 + len;
    }
    var consts := ParseConstPool(data);
    return Some(Executable(code, consts, entry.value));
  }

  /** What loading a list of sections gives: of each kind the last one counts. */
  function LoadSections(ss: seq<Section>, l: Loaded): Loaded {
    if ss == [] then l else LoadSections(ss[1..], Take(l, ss[0].kind, ss[0].body))
  }

  /** One section at a position. */
  lemma SectionAt(d: seq<u8>, pos: nat, s: Section, tail: seq<u8>)
    requires pos <= |d| && d[pos..] == SectionBytes(s) + tail && |s.body| < 0x1_0000_0000
    ensures pos + 5 + |s.body| <= |d| && d[pos] == s.kind && Word(d, pos + 1) == |s.body|
    ensures d[pos + 5..pos + 5 + |s.body|] == s.body && d[pos + 5 + |s.body|..] == tail
    ensures d[pos..pos + 5 + |s.body|] == SectionBytes(s)
  {
    hide Le32;
    var e := pos + 5 + |s.body|;
    assert forall k :: pos <= k < e ==> d[k] == d[pos..][k - pos] == SectionBytes(s)[k - pos];
    assert d[e..] == d[pos..][5 + |s.body|..];
    LengthWord(|s.body|);
  }

  lemma LengthWord(n: nat)
    requires n < 0x1_0000_0000
    ensures FromLe32(Le32(n)[0], Le32(n)[1], Le32(n)[2], Le32(n)[3]) == n
  {
    Le32RoundTrip(n);
  }

  lemma {:induction false} WalkSections(d: seq<u8>, pos: nat, ss: seq<Section>, rest: seq<u8>, l: Loaded)
    requires ValidSections(ss) && pos <= |d| && d[pos..] == SectionsBytes(ss) + ([SECTION_END] + rest)
    ensures Walk(d, pos, l) == LoadSections(ss, l)
    decreases |ss|
  {
    hide Word, SectionBytes;
    if ss == [] {
      assert d[pos] == d[pos..][0];
    } else {
      var tail := SectionsBytes(ss[1..]) + ([SECTION_END] + rest);
      assert d[pos..] == SectionBytes(ss[0]) + tail;
      SectionAt(d, pos, ss[0], tail);
      WalkSections(d, pos + 5 + |ss[0].body|, ss[1..], rest, Take(l, ss[0].kind, ss[0].body));
    }
  }

  lemma FileParts(header: seq<u8>, ss: seq<Section>, rest: seq<u8>)
    requires |header| == HEADER_SIZE
    ensures var d := File(header, ss, rest);
            && |d| > HEADER_SIZE && d[..HEADER_SIZE] == header
            && d[HEADER_SIZE..] == SectionsBytes(ss) + ([SECTION_END] + rest)
            && Validate(d) == Validate(header)
  {
    hide Magic;
    var d := File(header, ss, rest);
    assert d[..HEADER_SIZE] == header;
    assert forall k :: 0 <= k < HEADER_SIZE ==> d[k] == header[k];
    assert d[..8] == header[..8];
  }

  lemma {:induction false} FileLoads(header: seq<u8>, ss: seq<Section>, rest: seq<u8>)
    requires |header| == HEADER_SIZE && ValidSections(ss)
    ensures var e, l := Validate(header), LoadSections(ss, Loaded([], []));
            Load(File(header, ss, rest)) == if e.None? then None else Some(Executable(l.code, ParsePool(l.data), e.value))
  {
    hide Validate, ParsePool, SectionsBytes;
    FileParts(header, ss, rest);
    WalkSections(File(header, ss, rest), HEADER_SIZE, ss, rest, Loaded([], []));
  }

  lemma HeaderValid(entry: u32, codeSize: nat, dataSize: nat)
    ensures Validate(Header(entry, codeSize, dataSize)) == Some(entry)
  {
    hide Le32;
    var h := Header(entry, codeSize, dataSize);
    assert h[..8] == Magic();
    assert forall k :: 0 <= k < 4 ==> h[10 + k] == Le32(entry)[k];
    LengthWord(entry);
  }

  /** Loading a packed program gives its code, its entry and the pool that parsing gives back. */
  lemma PackedLoads(code: seq<u8>, consts: seq<seq<u8>>, entry: u32)
    requires |code| < 0x1_0000_0000 && |PoolBytes(consts)| < 0x1_0000_0000
    ensures Load(PackRxe(code, consts, entry)) == Some(Executable(code, ParsePool(PoolBytes(consts)), entry))
  {
    hide Header, Validate, ParsePool, PoolBytes, SectionBytes;
    var data := PoolBytes(consts);
    var a, b := Section(SECTION_CODE, code), Section(SECTION_DATA, data);
    HeaderValid(entry, |code|, |data|);
    FileLoads(Header(entry, |code|, |data|), [a, b], []);
    assert [a, b][1..] == [b] && [b][1..] == [];
    assert LoadSections([b], Loaded(code, [])) == Loaded(code, data);
  }

  /** Packing and loading is the identity on programs whose constants fit. */
  lemma RxeRoundTrip(code: seq<u8>, consts: seq<seq<u8>>, entry: u32)
    requires |code| < 0x1_0000_0000 && |PoolBytes(consts)| < 0x1_0000_0000
    ensures Load(PackRxe(code, consts, entry)) == Some(Executable(code, consts, entry)) <==>
            |consts| < 0x1_0000 && forall i :: 0 <= i < |consts| ==> |consts[i]| < 0x1_0000
  {
    hide Load, PackRxe, ParsePool, PoolBytes;
    PackedLoads(code, consts, entry);
    PoolRoundTrip(consts);
  }

  // Stripping.

  /** The file without its symbol sections; `None` where the program runs past the end of the file. */
  function StripFrom(d: seq<u8>, pos: nat, out: seq<u8>): Option<seq<u8>>
    decreases |d| - pos
  {
    if pos >= |d| then Some(out)
    else if d[pos] == SECTION_END then Some(out + [SECTION_END])
    else if pos + 5 > |d| then Some(out)
    else
      var end := pos + 5 + Word(d, pos + 1);
      if d[pos] == SECTION_SYM then StripFrom(d, end, out)
      else if end > |d| then None
      else StripFrom(d, end, out + d[pos..end])
  }

  function Strip(d: seq<u8>): Option<seq<u8>> {
    if |d| < HEADER_SIZE then None else StripFrom(d, HEADER_SIZE, d[..HEADER_SIZE])
  }

  method StripRxe(data: seq<u8>) returns (r: Option<seq<u8>>)
    ensures r == Strip(data)
  {
    hide Word;
    if |data| < HEADER_SIZE {
      return None;
    }
    var out, pos := data[..HEADER_SIZE], HEADER_SIZE;
    while pos < |data|
      invariant StripFrom(data, pos, out) == Strip(data)
      decreases |data| - pos
    {
      var sec := data[pos];
      if sec == SECTION_END {
        out := out + [SECTION_END];
        return Some(out);
      }
      if pos + 5 > |data| {
        return Some(out);
      }
      var slen := Word(data, pos + 1);
      if sec != SECTION_SYM {
        if pos + 5 + slen > |data| {
          return None;
        }
        out := out + data[pos..pos + 5 + slen];
      }
      pos := pos + 5 + slen;
    }
    return Some(out);
  }

  function WithoutSymbols(ss: seq<Section>): seq<Section> {
    if ss == [] then [] else (if ss[0].kind == 0x03 then [] else [ss[0]]) + WithoutSymbols(ss[1..])
  }

  lemma {:induction false} StripSections(d: seq<u8>, pos: nat, ss: seq<Section>, rest: seq<u8>, out: seq<u8>)
    requires ValidSections(ss) && pos <= |d| && d[pos..] == SectionsBytes(ss) + ([SECTION_END] + rest)
    ensures StripFrom(d, pos, out) == Some(out + (SectionsBytes(WithoutSymbols(ss)) + ([SECTION_END] + [])))
    decreases |ss|
  {
    hide Word, SectionBytes, WithoutSymbols;
    WithoutFirst(ss);
    if ss == [] {
      assert d[pos] == d[pos..][0];
      assert out + ([] + ([SECTION_END] + [])) == out + [SECTION_END];
    } else {
      var s, tail := ss[0], SectionsBytes(ss[1..]) + ([SECTION_END] + rest);
      assert d[pos..] == SectionBytes(s) + tail;
      SectionAt(d, pos, s, tail);
      var end := pos + 5 + |s.body|;
      if s.kind == SECTION_SYM {
        StripSections(d, end, ss[1..], rest, out);
      } else {
        StripSections(d, end, ss[1..], rest, out + SectionBytes(s));
        KeptBytes(s, WithoutSymbols(ss[1..]));
        Regroup(out, SectionBytes(s), SectionsBytes(WithoutSymbols(ss[1..])), [SECTION_END] + []);
      }
    }
  }

  lemma Regroup(a: seq<u8>, b: seq<u8>, c: seq<u8>, d: seq<u8>)
    ensures (a + b) + (c + d) == a + ((b + c) + d)
  {
  }

  lemma WithoutFirst(ss: seq<Section>)
    ensures WithoutSymbols(ss) == if ss == [] then [] else if ss[0].kind == SECTION_SYM then WithoutSymbols(ss[1..])
                                  else [ss[0]] + WithoutSymbols(ss[1..])
  {
    if ss != [] {
      assert [] + WithoutSymbols(ss[1..]) == WithoutSymbols(ss[1..]);
    }
  }

  lemma KeptBytes(s: Section, ss: seq<Section>)
    ensures SectionsBytes([s] + ss) == SectionBytes(s) + SectionsBytes(ss)
  {
    assert ([s] + ss)[1..] == ss;
  }

  lemma {:induction false} SymbolsOnce(ss: seq<Section>)
    ensures WithoutSymbols(WithoutSymbols(ss)) == WithoutSymbols(ss)
    ensures ValidSections(ss) ==> ValidSections(WithoutSymbols(ss))
  {
    hide WithoutSymbols;
    WithoutFirst(ss);
    if ss != [] {
      var rest := WithoutSymbols(ss[1..]);
      SymbolsOnce(ss[1..]);
      if ss[0].kind != SECTION_SYM {
        WithoutFirst([ss[0]] + rest);
        assert ([ss[0]] + rest)[1..] == rest;
      }
    }
  }

  lemma {:induction false} SymbolsDoNotLoad(ss: seq<Section>, l: Loaded)
    ensures LoadSections(WithoutSymbols(ss), l) == LoadSections(ss, l)
    decreases |ss|
  {
    if ss != [] {
      var rest := WithoutSymbols(ss[1..]);
      SymbolsDoNotLoad(ss[1..], Take(l, ss[0].kind, ss[0].body));
      if ss[0].kind == SECTION_SYM {
        assert [] + rest == rest;
      } else {
        assert ([ss[0]] + rest)[1..] == rest;
      }
    }
  }

  /** On any well-formed file, stripping removes exactly the symbol sections and what follows the end mark. */
  lemma StripRemovesSymbols(header: seq<u8>, ss: seq<Section>, rest: seq<u8>)
    requires |header| == HEADER_SIZE && ValidSections(ss)
    ensures Strip(File(header, ss, rest)) == Some(File(header, WithoutSymbols(ss), []))
  {
    hide SectionsBytes, Validate;
    FileParts(header, ss, rest);
    StripSections(File(header, ss, rest), HEADER_SIZE, ss, rest, header);
  }

  /** The stripped file loads as the original does. */
  lemma StripKeepsProgram(header: seq<u8>, ss: seq<Section>, rest: seq<u8>)
    requires |header| == HEADER_SIZE && ValidSections(ss)
    ensures Strip(File(header, ss, rest)).Some?
    ensures Load(Strip(File(header, ss, rest)).value) == Load(File(header, ss, rest))
  {
    hide Load, Strip, File, Validate, ParsePool, LoadSections, WithoutSymbols;
    StripRemovesSymbols(header, ss, rest);
    SymbolsOnce(ss);
    SymbolsDoNotLoad(ss, Loaded([], []));
    FileLoads(header, ss, rest);
    FileLoads(header, WithoutSymbols(ss), []);
  }

  /** Stripping twice is stripping once. */
  lemma StripTwice(header: seq<u8>, ss: seq<Section>, rest: seq<u8>)
    requires |header| == HEADER_SIZE && ValidSections(ss)
    ensures Strip(File(header, ss, rest)).Some?
    ensures Strip(Strip(File(header, ss, rest)).value) == Strip(File(header, ss, rest))
  {
    hide Strip, File, WithoutSymbols;
    StripRemovesSymbols(header, ss, rest);
    SymbolsOnce(ss);
    StripRemovesSymbols(header, WithoutSymbols(ss), []);
  }

  /** A compiled program survives being packed and loaded. */
  lemma CompiledProgramLoads(p: Program)
    requires var im := ProgramImage(p);
             && |im.code| < 0x1_0000_0000 && im.entry < 0x1_0000_0000 && |PoolBytes(im.pool)| < 0x1_0000_0000
             && |im.pool| < 0x1_0000 && forall i :: 0 <= i < |im.pool| ==> |im.pool[i]| < 0x1_0000
    ensures var im := ProgramImage(p);
            Load(PackRxe(im.code, im.pool, im.entry)) == Some(Executable(im.code, im.pool, im.entry))
  {
    hide ProgramImage, Load, PackRxe, PoolBytes;
    var im := ProgramImage(p);
    RxeRoundTrip(im.code, im.pool, im.entry);
  }
}
