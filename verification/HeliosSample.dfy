/** A Helios program, its executable file byte for byte, and what running it prints: opcodes, operands, addresses,
    string pool and file layout, all on one small program. */
module HeliosSample {
  import opened Bits
  import opened Wrappers
  import opened HeliosAst
  import opened HeliosSemantics
  import opened HeliosCode
  import opened HeliosVm
  import opened HeliosLink
  import opened HeliosCorrect
  import opened HeliosRxe
  import L = HeliosLaws

  const TEXT: seq<u8> := ['x' as int, '=' as int]

  const DIFFERENCE := Bin(Var("n"), Sub, IntLit(3))

  /** fn shout(n) { print("x="); return n - 3; } */
  const SHOUT := FnDef("shout", ["n"], [Print(StrLit(TEXT)), Return(DIFFERENCE)])

  /** fn main() { print(shout(10)); } */
  const MAIN := FnDef("main", [], [Print(Call("shout", [IntLit(10)]))])

  const SAMPLE := Program([SHOUT, MAIN], [])

  function ShoutCode(): seq<u8> {
    [0x02, 0x00, 0x00, 0x50]
    + ([0x40, 0x00, 0x00, 0x00, 0x00, 0x01, 0x03, 0x00, 0x00, 0x00, 0x11, 0x34]
    + [0x01, 0x00, 0x00, 0x00, 0x00, 0x34])
  }

  function MainCode(): seq<u8> {
    [0x01, 0x0A, 0x00, 0x00, 0x00, 0x01, 0x01, 0x00, 0x00, 0x00, 0x33, 0x00, 0x00, 0x00, 0x00, 0x51]
    + [0x01, 0x00, 0x00, 0x00, 0x00, 0x34]
  }

  /** The file: "RADIUM_X", version and architecture, entry 22, the sizes 44 and 7, the author's tag; the code section;
      the data section with one string; the end mark. */
  function SampleBytes(): seq<u8> {
    ([0x52, 0x41, 0x44, 0x49, 0x55, 0x4D, 0x5F, 0x58, 0x06, 0x86, 0x16, 0x00, 0x00, 0x00, 0x2C, 0x00, 0x00, 0x00,
      0x07, 0x00, 0x00, 0x00, 0x00, 0x00, 0x73, 0x63, 0x70, 0x5F, 0x32, 0x38, 0x30, 0x31])
    + (([0x01, 0x2C, 0x00, 0x00, 0x00] + (ShoutCode() + MainCode()))
    + (([0x02, 0x07, 0x00, 0x00, 0x00] + [0x01, 0x00, 0x03, 0x00, 0x78, 0x3D, 0x00])
    + [0xFF]))
  }

  // The tables.

  lemma OneParam()
    ensures AddLocals(Names([], [], []), ["n"]) == Names(["n"], [], [])
    ensures AddLocals(Names([], [TEXT + [0]], []), []) == Names([], [TEXT + [0]], [])
  {
    assert ["n"][..0] == [];
    assert AddLocals(Names([], [], []), []) == Names([], [], []);
  }

  lemma ShoutNames()
    ensures FnNames([], [], SHOUT) == Names(["n"], [TEXT + [0]], [])
  {
    OneParam();
    var n0, n1 := Names(["n"], [], []), Names(["n"], [TEXT + [0]], []);
    assert StmtNames(n0, SHOUT.body[0]) == n1;
    assert StmtNames(n1, SHOUT.body[1]) == n1 by {
      assert ExprNames(n1, DIFFERENCE.left) == n1;
    }
    assert SHOUT.body[..1] == [SHOUT.body[0]] && SHOUT.body[..1][..0] == [];
    assert StmtsNames(n0, []) == n0;
    assert StmtsNames(n0, SHOUT.body[..1]) == n1;
  }

  lemma MainNames(pool: seq<seq<u8>>)
    ensures FnNames(pool, [], MAIN) == Names([], pool, [])
  {
    var n := Names([], pool, []);
    assert MAIN.body[..0] == [];
    assert ArgsNames(n, [IntLit(10)]) == n by {
      assert [IntLit(10)][..0] == [];
      assert ArgsNames(n, []) == n;
    }
    assert StmtsNames(n, []) == n;
    assert StmtNames(n, MAIN.body[0]) == n;
  }

  lemma SamplePool()
    ensures PoolOf(SAMPLE.fns, []) == [TEXT + [0]]
    ensures SlotsOf([], SHOUT) == ["n"] && SlotsOf([], MAIN) == []
  {
    hide FnNames;
    ShoutNames();
    MainNames([]);
    MainNames([TEXT + [0]]);
    assert SAMPLE.fns[..1] == [SHOUT] && [SHOUT][..0] == [];
    assert PoolOf([], []) == [];
    assert PoolOf([SHOUT], []) == [TEXT + [0]];
  }

  // The code.

  lemma Words()
    ensures Le32(0) == [0, 0, 0, 0] && Le32(1) == [1, 0, 0, 0] && Le32(3) == [3, 0, 0, 0] && Le32(10) == [10, 0, 0, 0]
    ensures Le32(22) == [22, 0, 0, 0] && Le32(44) == [44, 0, 0, 0] && Le32(7) == [7, 0, 0, 0] && Le32(44 + 0) == Le32(44)
    ensures Le16(0) == [0, 0] && Le16(1) == [1, 0] && Le16(3) == [3, 0]
  {
  }

  lemma ImmBytes(b: u8, n: int, es: seq<(string, nat)>)
    ensures CellBytes(OpImm(b, n), es) == [b] + Le32(n)
  {
    hide Le32;
  }

  lemma CatBytes(a: seq<Cell>, b: seq<Cell>, es: seq<(string, nat)>)
    ensures CellBytes(a + b, es) == CellBytes(a, es) + CellBytes(b, es)
  {
  }

  lemma OpBytes(b: u8, es: seq<(string, nat)>)
    ensures CellBytes(Op(b), es) == [b]
  {
  }

  lemma CallBytes(f: string, es: seq<(string, nat)>)
    ensures CellBytes(OpRef(CALL, FnEntry(f)), es) == [CALL] + Le32(EntryAddr(es, f))
  {
    hide Le32;
  }

  lemma ReturnZero(es: seq<(string, nat)>)
    ensures CellBytes(OpImm(PUSH, 0) + Op(RET), es) == [0x01, 0x00, 0x00, 0x00, 0x00, 0x34]
  {
    hide Le32, CellBytes, OpImm, Op;
    CatBytes(OpImm(PUSH, 0), Op(RET), es);
    ImmBytes(PUSH, 0, es);
    OpBytes(RET, es);
    Words();
  }

  lemma DifferenceBytes(n: Names, es: seq<(string, nat)>)
    requires n == Names(["n"], [TEXT + [0]], [])
    ensures CellBytes(ExprCells(n, DIFFERENCE), es) ==
            [0x40, 0x00, 0x00, 0x00, 0x00, 0x01, 0x03, 0x00, 0x00, 0x00, 0x11]
  {
    hide Le32, CellBytes, OpImm, Op;
    Words();
    assert IndexOf(["n"], "n") == 0;
    assert ExprCells(n, DIFFERENCE.left) == OpImm(LOADLOCAL, 0);
    assert ExprCells(n, IntLit(3)) == OpImm(PUSH, 3);
    CatBytes(OpImm(LOADLOCAL, 0) + OpImm(PUSH, 3), Op(0x11), es);
    CatBytes(OpImm(LOADLOCAL, 0), OpImm(PUSH, 3), es);
    ImmBytes(LOADLOCAL, 0, es);
    ImmBytes(PUSH, 3, es);
    OpBytes(0x11, es);
  }

  lemma TextBytes(n: Names, es: seq<(string, nat)>)
    requires n == Names(["n"], [TEXT + [0]], [])
    ensures CellBytes(ExprCells(n, StrLit(TEXT)), es) == [0x02, 0x00, 0x00]
  {
    assert IndexOf([TEXT + [0]], TEXT + [0]) == 0;
    Words();
    assert ExprCells(n, StrLit(TEXT)) == [Byte(PUSHSTR)] + Lits([0, 0]);
  }

  lemma TwoStmts(n: Names, s: Stmt, t: Stmt)
    ensures StmtsCells(n, [s, t], 0, At(0), At(0)) ==
            StmtCells(n, s, 0, At(0), At(0)) + StmtCells(n, t, StmtLen(s), At(0), At(0))
  {
    hide StmtCells, StmtLen;
    OneStmtCells(n, s, 0);
    assert [s, t][..1] == [s];
    assert [s][..0] == [];
    assert StmtsLen([s]) == StmtsLen([]) + StmtLen(s);
  }

  lemma OneStmtCells(n: Names, s: Stmt, base: nat)
    ensures StmtsCells(n, [s], base, At(0), At(0)) == StmtCells(n, s, base, At(0), At(0))
  {
    hide StmtCells, StmtLen;
    assert [s][..0] == [];
    assert StmtsCells(n, [], base, At(0), At(0)) == [] && StmtsLen([]) == 0;
    assert [] + StmtCells(n, s, base, At(0), At(0)) == StmtCells(n, s, base, At(0), At(0));
  }

  lemma ShoutBytes(n: Names, es: seq<(string, nat)>)
    requires n == Names(["n"], [TEXT + [0]], [])
    ensures CellBytes(FnCells(n, SHOUT, 0), es) == ShoutCode()
  {
    hide CellBytes, ExprCells, Op, OpImm, StmtsCells;
    var s, t := SHOUT.body[0], SHOUT.body[1];
    assert SHOUT.body == [s, t];
    TwoStmts(n, s, t);
    assert StmtCells(n, s, 0, At(0), At(0)) == ExprCells(n, StrLit(TEXT)) + Op(PRINT);
    assert StmtCells(n, t, StmtLen(s), At(0), At(0)) == ExprCells(n, DIFFERENCE) + Op(RET);
    CatBytes(StmtsCells(n, SHOUT.body, 0, At(0), At(0)), OpImm(PUSH, 0) + Op(RET), es);
    CatBytes(ExprCells(n, StrLit(TEXT)) + Op(PRINT), ExprCells(n, DIFFERENCE) + Op(RET), es);
    CatBytes(ExprCells(n, StrLit(TEXT)), Op(PRINT), es);
    CatBytes(ExprCells(n, DIFFERENCE), Op(RET), es);
    OpBytes(PRINT, es);
    OpBytes(RET, es);
    TextBytes(n, es);
    DifferenceBytes(n, es);
    ReturnZero(es);
    Cut(n);
  }

  lemma Cut(n: Names)
    ensures FnCells(n, SHOUT, 0) == StmtsCells(n, SHOUT.body, 0, At(0), At(0)) + (OpImm(PUSH, 0) + Op(RET))
  {
    hide StmtsCells, OpImm, Op;
  }

  lemma MainBytes(n: Names, es: seq<(string, nat)>)
    requires n == Names([], [TEXT + [0]], []) && EntryAddr(es, "shout") == 0
    ensures CellBytes(FnCells(n, MAIN, 22), es) == MainCode()
  {
    hide CellBytes, ExprCells, Op, OpImm, StmtsCells, OpRef;
    var e := Call("shout", [IntLit(10)]);
    assert MAIN.body == [Print(e)];
    OneStmtCells(n, Print(e), 22);
    assert StmtCells(n, Print(e), 22, At(0), At(0)) == ExprCells(n, e) + Op(PRINTNUM);
    CallCells(n);
    var args := OpImm(PUSH, 10) + OpImm(PUSH, 1);
    assert FnCells(n, MAIN, 22) == (ExprCells(n, e) + Op(PRINTNUM)) + (OpImm(PUSH, 0) + Op(RET));
    CatBytes(ExprCells(n, e) + Op(PRINTNUM), OpImm(PUSH, 0) + Op(RET), es);
    CatBytes(ExprCells(n, e), Op(PRINTNUM), es);
    CatBytes(args, OpRef(CALL, FnEntry("shout")), es);
    CatBytes(OpImm(PUSH, 10), OpImm(PUSH, 1), es);
    ImmBytes(PUSH, 10, es);
    ImmBytes(PUSH, 1, es);
    CallBytes("shout", es);
    OpBytes(PRINTNUM, es);
    ReturnZero(es);
    Words();
  }

  lemma CallCells(n: Names)
    ensures ExprCells(n, Call("shout", [IntLit(10)])) ==
            OpImm(PUSH, 10) + OpImm(PUSH, 1) + OpRef(CALL, FnEntry("shout"))
  {
    hide OpImm, OpRef;
    assert [IntLit(10)][..0] == [];
    assert ArgsCells(n, []) == [] && ExprCells(n, IntLit(10)) == OpImm(PUSH, 10);
    assert ArgsCells(n, [IntLit(10)]) == [] + OpImm(PUSH, 10);
  }

  lemma SampleEntries()
    ensures Entries(SAMPLE.fns) == [("shout", 0), ("main", 22)]
    ensures FnsLen(SAMPLE.fns[..1]) == 22
  {
    hide FnLen;
    ShoutLength();
    assert SAMPLE.fns[..1] == [SHOUT] && [SHOUT][..0] == [];
    assert FnsLen([]) == 0 && Entries([]) == [];
    assert FnsLen([SHOUT]) == 22 && Entries([SHOUT]) == [("shout", 0)];
  }

  lemma ShoutLength()
    ensures FnLen(SHOUT) == 22
  {
    assert SHOUT.body[..1] == [SHOUT.body[0]] && [SHOUT.body[0]][..0] == [];
    assert StmtsLen([]) == 0;
    assert StmtsLen([SHOUT.body[0]]) == 4;
    assert StmtLen(SHOUT.body[1]) == 12;
  }

  lemma SampleCells(pool: seq<seq<u8>>)
    ensures var ns, nm := Names(SlotsOf([], SHOUT), pool, []), Names(SlotsOf([], MAIN), pool, []);
            FnsLen(SAMPLE.fns[..1]) == 22 &&
            FnsCells(SAMPLE.fns, [], pool) == FnCells(ns, SHOUT, 0) + FnCells(nm, MAIN, 22)
  {
    hide FnCells, SlotsOf;
    SampleEntries();
    var ns := Names(SlotsOf([], SHOUT), pool, []);
    assert SAMPLE.fns[..1] == [SHOUT] && [SHOUT][..0] == [];
    assert FnsCells([], [], pool) == [] && FnsLen([]) == 0;
    assert FnsCells([SHOUT], [], pool) == [] + FnCells(ns, SHOUT, 0);
    assert [] + FnCells(ns, SHOUT, 0) == FnCells(ns, SHOUT, 0);
  }

  /** Compiling the program gives these bytes, this string and this entry address. */
  lemma SampleCompiles()
    ensures ProgramImage(SAMPLE) == Image(ShoutCode() + MainCode(), [TEXT + [0]], 22)
  {
    hide FnsCells, FnCells, PoolOf, SlotsOf, CellBytes, Entries, ShoutCode, MainCode;
    SamplePool();
    SampleEntries();
    var es := [("shout", 0), ("main", 22)];
    var pool := [TEXT + [0]];
    SampleCells(pool);
    assert EntryAddr(es, "shout") == 0;
    assert FindEntry(es, "main") == Some(22);
    ShoutBytes(Names(["n"], pool, []), es);
    MainBytes(Names([], pool, []), es);
    CatBytes(FnCells(Names(["n"], pool, []), SHOUT, 0), FnCells(Names([], pool, []), MAIN, 22), es);
  }

  lemma SampleHeader()
    ensures Header(22, 44, 7) ==
            [0x52, 0x41, 0x44, 0x49, 0x55, 0x4D, 0x5F, 0x58, 0x06, 0x86, 0x16, 0x00, 0x00, 0x00, 0x2C, 0x00, 0x00, 0x00,
             0x07, 0x00, 0x00, 0x00, 0x00, 0x00, 0x73, 0x63, 0x70, 0x5F, 0x32, 0x38, 0x30, 0x31]
  {
    hide Le32, Le16;
    Words();
  }

  lemma SamplePoolBytes()
    ensures PoolBytes([TEXT + [0]]) == [0x01, 0x00, 0x03, 0x00, 0x78, 0x3D, 0x00]
  {
    hide Le16;
    Words();
    assert [TEXT + [0]][1..] == [];
    assert Strings([TEXT + [0]]) == Le16(3) + (TEXT + [0]) + [];
  }

  /** The executable of the program is this file, and loading the file gives the program's code, string and entry. */
  lemma SampleFile()
    ensures var code, pool := ShoutCode() + MainCode(), [TEXT + [0]];
            && ProgramImage(SAMPLE) == Image(code, pool, 22)
            && PackRxe(code, pool, 22) == SampleBytes()
            && Load(SampleBytes()) == Some(Executable(code, pool, 22))
  {
    hide ProgramImage, Load, Header, Le32, PoolBytes;
    SampleCompiles();
    SampleHeader();
    SamplePoolBytes();
    SampleSections();
    RxeRoundTrip(ShoutCode() + MainCode(), [TEXT + [0]], 22);
  }

  lemma SampleSections()
    ensures |ShoutCode() + MainCode()| == 44
    ensures SectionsBytes([Section(SECTION_CODE, ShoutCode() + MainCode()),
                           Section(SECTION_DATA, [0x01, 0x00, 0x03, 0x00, 0x78, 0x3D, 0x00])]) ==
            ([0x01, 0x2C, 0x00, 0x00, 0x00] + (ShoutCode() + MainCode()))
            + ([0x02, 0x07, 0x00, 0x00, 0x00] + [0x01, 0x00, 0x03, 0x00, 0x78, 0x3D, 0x00])
  {
    hide Le32;
    Words();
    var code, data: seq<u8> := ShoutCode() + MainCode(), [0x01, 0x00, 0x03, 0x00, 0x78, 0x3D, 0x00];
    hide ShoutCode, MainCode;
    var ss := [Section(SECTION_CODE, code), Section(SECTION_DATA, data)];
    assert ss[1..] == [Section(SECTION_DATA, data)] && ss[1..][1..] == [];
    assert SectionBytes(ss[0]) == [0x01, 0x2C, 0x00, 0x00, 0x00] + code;
    assert SectionBytes(ss[1]) == [0x02, 0x07, 0x00, 0x00, 0x00] + data;
    assert SectionsBytes(ss[1..]) == SectionBytes(ss[1]) + [];
  }

  // Running it.

  lemma SourcePrints(fuel: nat)
    requires fuel >= 1
    ensures RunMain(SAMPLE, 1, fuel) == Some(['x' as int, '=' as int, '7' as int])
  {
    hide ExecStmts, CallFn;
    var s := Store(map[], []);
    CallShout(s, fuel);
    L.OneStmt(SAMPLE, MAIN.body[0], s, 1, fuel);
    assert FindFn(SAMPLE.fns, "main") == Some(MAIN);
    MainRuns(fuel);
  }

  lemma ShoutRuns(fuel: nat)
    ensures CallFn(SAMPLE, SHOUT, [10], [], 0, fuel) == Value(7, TEXT)
  {
    hide ExecStmts, BinVal;
    var vars := map["n" := 10];
    assert Bind(["n"], [10]) == vars by {
      assert ["n"][..0] == [] && [10][..0] == [];
      assert Bind([], []) == map[];
    }
    var s, t := Store(vars, []), Store(vars, TEXT);
    ShownWhole();
    assert [] + TEXT == TEXT;
    assert ExecStmt(SAMPLE, SHOUT.body[0], s, 0, fuel) == End(Next, t);
    DifferenceValue(t, fuel);
    assert SHOUT.body == [SHOUT.body[0]] + [SHOUT.body[1]];
    L.FirstStmt(SAMPLE, SHOUT.body[0], [SHOUT.body[1]], s, 0, fuel);
    L.OneStmt(SAMPLE, SHOUT.body[1], t, 0, fuel);
  }

  lemma ShownWhole()
    ensures UpToNul(TEXT) == TEXT
  {
    assert UpToNul(TEXT[1..]) == TEXT[1..];
  }

  lemma DifferenceValue(s: Store, fuel: nat)
    requires s.vars == map["n" := 10]
    ensures EvalExpr(SAMPLE, DIFFERENCE, s, 0, fuel) == Value(7, s.out)
  {
    L.SevenText();
    hide BinVal;
    assert EvalExpr(SAMPLE, Var("n"), s, 0, fuel) == Value(10, s.out);
    assert s.(out := s.out) == s;
    assert EvalExpr(SAMPLE, IntLit(3), s, 0, fuel) == Value(3, s.out);
  }

  lemma CallShout(s: Store, fuel: nat)
    requires fuel >= 1 && s.out == []
    ensures EvalExpr(SAMPLE, Call("shout", [IntLit(10)]), s, 1, fuel) == Value(7, TEXT)
  {
    hide CallFn;
    ShoutRuns(fuel - 1);
    assert FindFn(SAMPLE.fns, "shout") == Some(SHOUT);
    assert [IntLit(10)][..0] == [];
    assert EvalArgs(SAMPLE, [], s, 1, fuel) == Values([], s.out);
    assert [] + [10] == [10];
    assert EvalArgs(SAMPLE, [IntLit(10)], s, 1, fuel) == Values([10], []);
  }

  lemma MainRuns(fuel: nat)
    requires fuel >= 1
    ensures CallFn(SAMPLE, MAIN, [], [], 1, fuel) == Value(0, ['x' as int, '=' as int, '7' as int])
  {
    hide ExecStmts, EvalExpr, I32Text;
    var s := Store(map[], []);
    L.SevenText();
    CallShout(s, fuel);
    L.OneStmt(SAMPLE, MAIN.body[0], s, 1, fuel);
    assert TEXT + ['7' as int] == ['x' as int, '=' as int, '7' as int];
  }

  /** Loading the file and running it prints x=7, on any stack of at least six slots. */
  lemma SampleRuns(cap: nat) returns (steps: nat)
    requires 6 <= cap < 0x8000_0000
    ensures var e := Load(SampleBytes());
            && e.Some?
            && forall budget :: budget > steps ==>
                 var r := RunFrom(Machine(e.value.code, e.value.consts), InitState(cap, e.value.entry), budget);
                 r.Finished? && r.st.out == ['x' as int, '=' as int, '7' as int]
  {
    hide ProgramImage, Load, SampleBytes, RunFrom, RunMain, Fits;
    SampleWellFormed();
    SampleFits(cap);
    SourcePrints(1);
    SampleFile();
    steps := CompilerCorrect(SAMPLE, cap, 1, 1);
  }

  lemma SampleWellFormed()
    ensures WfProgram(SAMPLE)
  {
    assert FindFn(SAMPLE.fns, "shout") == Some(SHOUT);
    assert WfStmts(SAMPLE, MAIN.body, false);
    assert WfStmts(SAMPLE, SHOUT.body, false);
  }

  /** Six slots are enough. */
  lemma SampleFits(cap: nat)
    requires 6 <= cap < 0x8000_0000
    ensures Fits(SAMPLE, cap, 1)
  {
    hide ProgramImage, ShoutCode, MainCode, MaxFrame;
    SampleCompiles();
    SampleSections();
    SampleFrame();
    assert StackNeed(3, 1) == 3 + StackNeed(3, 0);
  }

  lemma SampleFrame()
    ensures MaxFrame([], SAMPLE.fns) == 3
  {
    hide SlotsOf, StmtsDepth;
    SamplePool();
    BodyDepths();
    assert SAMPLE.fns[1..] == [MAIN] && [MAIN][1..] == [];
    assert MaxFrame([], [MAIN]) == 2;
  }

  lemma BodyDepths()
    ensures StmtsDepth(SHOUT.body) == 2 && StmtsDepth(MAIN.body) == 2
  {
    assert StmtsDepth([]) == 0;
    assert SHOUT.body[..1] == [SHOUT.body[0]] && [SHOUT.body[0]][..0] == [] && MAIN.body[..0] == [];
    assert StmtDepth(SHOUT.body[0]) == 1 && StmtsDepth([SHOUT.body[0]]) == 1;
    assert ExprDepth(DIFFERENCE) == 2;
    assert [IntLit(10)][..0] == [] && ArgsDepth([]) == 0;
    assert ArgsDepth([IntLit(10)]) == 1;
  }

  /** What the loader asks of a file: a header of 32 bytes with the right magic bytes, version 5 or 6, and the
      architecture; the entry address stands at byte 10. */
  lemma LoadAccepts(d: seq<u8>)
    ensures Load(d).Some? <==>
            && |d| >= 32 && (forall i :: 0 <= i < 8 ==> d[i] == "RADIUM_X"[i] as int)
            && (d[8] == 5 || d[8] == 6) && d[9] == 0x86
    ensures Load(d).Some? ==>
              Load(d).value.entry ==
              d[10] as int + 0x100 * d[11] as int + 0x1_0000 * d[12] as int + 0x100_0000 * d[13] as int
  {
    hide HeliosRxe.Walk, ParsePool;
    MagicText();
    if |d| >= 32 {
      assert d[..8] == Magic() <==> forall i :: 0 <= i < 8 ==> d[i] == Magic()[i];
    }
  }

  lemma MagicText()
    ensures |Magic()| == 8 && forall i :: 0 <= i < 8 ==> Magic()[i] == "RADIUM_X"[i] as int
  {
  }
}
