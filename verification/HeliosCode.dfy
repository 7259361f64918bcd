/**
 * The bytecode of a Helios program as a function of its syntax.
 *
 * Code is described by cells: literal bytes, and address bytes that name their target. While the
 * emitter runs, calls and the jumps of `break` and `continue` have no address yet; their cells
 * say which function or which enclosing loop will supply it.
 */
module HeliosCode {
  import opened Bits
  import opened HeliosAst
  import opened Wrappers

  const PUSH: u8 := 0x01
  const PUSHSTR: u8 := 0x02
  const POP: u8 := 0x03
  const DUP: u8 := 0x04
  const SWAP: u8 := 0x05
  const OVER: u8 := 0x06
  const ADD: u8 := 0x10
  const NEG: u8 := 0x15
  const BNOT: u8 := 0x19
  const CMPEQ: u8 := 0x20
  const CMPLT: u8 := 0x22
  const CMPLE: u8 := 0x23
  const NOT: u8 := 0x2A
  const JMP: u8 := 0x30
  const JZ: u8 := 0x31
  const JNZ: u8 := 0x32
  const CALL: u8 := 0x33
  const RET: u8 := 0x34
  const HALT: u8 := 0x35
  const LOADLOCAL: u8 := 0x40
  const STORELOCAL: u8 := 0x41
  const PRINT: u8 := 0x50
  const PRINTNUM: u8 := 0x51
  const CASTINT: u8 := 0xC0
  const CASTBOOL: u8 := 0xC1
  const NOP: u8 := 0xFF

  function BinByte(op: BinOp): u8 {
    match op
    case Add => 0x10
    case Sub => 0x11
    case Mul => 0x12
    case Div => 0x13
    case Mod => 0x14
    case BAnd => 0x16
    case BOr => 0x17
    case BXor => 0x18
    case Shl => 0x1A
    case Shr => 0x1B
    case Eq => 0x20
    case Ne => 0x21
    case Lt => 0x22
    case Le => 0x23
    case Gt => 0x24
    case Ge => 0x25
    case LAnd => 0x28
    case LOr => 0x29
  }

  function UnByte(op: UnOp): u8 {
    match op
    case Neg => NEG
    case Not => NOT
    case BNot => BNOT
  }

  function CastByte(t: CastTarget): u8 {
    match t
    case ToInt => CASTINT
    case ToBool => CASTBOOL
  }

  /** What supplies an address: it is known, or a function, or the n-th enclosing loop, or the
      emitter patches it later in the same statement. */
  datatype Target = At(addr: nat) | FnEntry(fname: string) | BreakOf(loop: nat) | ContinueOf(loop: nat) | Pending

  datatype Cell = Byte(b: u8) | Addr(t: Target, k: nat)

  function Lits(bs: seq<u8>): (r: seq<Cell>)
    ensures |r| == |bs|
    ensures forall i :: 0 <= i < |bs| ==> r[i] == Byte(bs[i])
  {
    seq(|bs|, i requires 0 <= i < |bs| => Byte(bs[i]))
  }

  function Op(b: u8): seq<Cell> {
    [Byte(b)]
  }

  /** An opcode followed by a 32-bit operand. */
  function OpImm(b: u8, n: int): (r: seq<Cell>)
    ensures |r| == 5
  {
    [Byte(b)] + Lits(Le32(n))
  }

  /** A 32-bit address operand. */
  function Ref(t: Target): (r: seq<Cell>)
    ensures |r| == 4
  {
    [Addr(t, 0), Addr(t, 1), Addr(t, 2), Addr(t, 3)]
  }

  function OpRef(b: u8, t: Target): (r: seq<Cell>)
    ensures |r| == 5
  {
    [Byte(b)] + Ref(t)
  }

  function IndexOf<T(==)>(s: seq<T>, x: T): (i: nat)
    ensures i <= |s|
    ensures i < |s| <==> x in s
    ensures i < |s| ==> s[i] == x
    ensures forall j :: 0 <= j < i ==> s[j] != x
  {
    if s == [] || s[0] == x then 0 else 1 + IndexOf(s[1..], x)
  }

  function Intern<T(==)>(s: seq<T>, x: T): (r: seq<T>)
    ensures s <= r && x in r
    ensures Distinct(s) ==> Distinct(r)
  {
    if x in s then s else s + [x]
  }

  /** The emitter's tables: one slot per local name, one index per string, and the constants. */
  datatype Names = Names(locals: seq<string>, pool: seq<seq<u8>>, consts: seq<(string, i32)>)

  function AddLocal(n: Names, x: string): Names {
    n.(locals := Intern(n.locals, x))
  }

  function AddString(n: Names, s: seq<u8>): Names {
    n.(pool := Intern(n.pool, s + [0]))
  }

  function AddLocals(n: Names, xs: seq<string>): Names {
    if xs == [] then n else AddLocal(AddLocals(n, xs[..|xs| - 1]), xs[|xs| - 1])
  }

  /** The tables after emitting an expression or statement: names enter in emission order. */
  function ExprNames(n: Names, e: Expr): Names
    decreases e
  {
    match e
    case StrLit(s) => AddString(n, s)
    case Var(x) => if FindConst(n.consts, x).Some? then n else AddLocal(n, x)
    case Un(_, a) => ExprNames(n, a)
    case Bin(a, _, b) => ExprNames(ExprNames(n, a), b)
    case Cast(a, _) => ExprNames(n, a)
    case Call(_, args) => ArgsNames(n, args)
    case _ => n
  }

  function ArgsNames(n: Names, args: seq<Expr>): Names
    decreases args
  {
    if args == [] then n else ExprNames(ArgsNames(n, args[..|args| - 1]), args[|args| - 1])
  }

  function StmtNames(n: Names, s: Stmt): Names
    decreases s
  {
    match s
    case Let(x, e) => AddLocal(ExprNames(n, e), x)
    case Assign(x, e) => AddLocal(ExprNames(n, e), x)
    case CompoundAssign(x, _, e) => ExprNames(AddLocal(n, x), e)
    case If(c, t, e) => StmtsNames(StmtsNames(ExprNames(n, c), t), e)
    case While(c, b) => StmtsNames(ExprNames(n, c), b)
    case Loop(b) => StmtsNames(n, b)
    case For(x, start, end, step, _, b) =>
      var n1 := StmtsNames(ExprNames(AddLocal(ExprNames(n, start), x), end), b);
      if step.None? then n1 else ExprNames(n1, step.value)
    case Match(e, arms) => ArmsNames(ExprNames(n, e), arms)
    case Return(e) => ExprNames(n, e)
    case Print(e) => ExprNames(n, e)
    case ExprStmt(e) => ExprNames(n, e)
    case _ => n
  }

  function StmtsNames(n: Names, ss: seq<Stmt>): Names
    decreases ss
  {
    if ss == [] then n else StmtNames(StmtsNames(n, ss[..|ss| - 1]), ss[|ss| - 1])
  }

  function ArmsNames(n: Names, arms: seq<Arm>): Names
    decreases arms
  {
    if arms == [] then n else StmtsNames(ArmsNames(n, arms[..|arms| - 1]), arms[|arms| - 1].body)
  }

  /** The cells of an expression, given the final tables of its function. */
  function ExprCells(n: Names, e: Expr): (r: seq<Cell>)
    ensures |r| == ExprLen(e)
    decreases e
  {
    match e
    case IntLit(v) => OpImm(PUSH, v)
    case BoolLit(b) => OpImm(PUSH, OfBool(b))
    case StrLit(s) => [Byte(PUSHSTR)] + Lits(Le16(IndexOf(n.pool, s + [0])))
    case Var(x) =>
      var c := FindConst(n.consts, x);
      if c.Some? then OpImm(PUSH, c.value) else OpImm(LOADLOCAL, IndexOf(n.locals, x))
    case Un(op, a) => ExprCells(n, a) + Op(UnByte(op))
    case Bin(a, op, b) => ExprCells(n, a) + ExprCells(n, b) + Op(BinByte(op))
    case Cast(a, t) => ExprCells(n, a) + Op(CastByte(t))
    case Call(f, args) => ArgsCells(n, args) + OpImm(PUSH, |args|) + OpRef(CALL, FnEntry(f))
  }

  function ArgsCells(n: Names, args: seq<Expr>): (r: seq<Cell>)
    ensures |r| == ArgsLen(args)
    decreases args
  {
    if args == [] then [] else ArgsCells(n, args[..|args| - 1]) + ExprCells(n, args[|args| - 1])
  }

  function ExprLen(e: Expr): nat
    decreases e
  {
    match e
    case StrLit(_) => 3
    case Un(_, a) => ExprLen(a) + 1
    case Bin(a, _, b) => ExprLen(a) + ExprLen(b) + 1
    case Cast(a, _) => ExprLen(a) + 1
    case Call(_, args) => ArgsLen(args) + 10
    case _ => 5
  }

  function ArgsLen(args: seq<Expr>): nat
    decreases args
  {
    if args == [] then 0 else ArgsLen(args[..|args| - 1]) + ExprLen(args[|args| - 1])
  }

  function StmtLen(s: Stmt): nat
    decreases s
  {
    match s
    case Let(_, e) => ExprLen(e) + 5
    case Assign(_, e) => ExprLen(e) + 5
    case CompoundAssign(_, _, e) => ExprLen(e) + 11
    case If(c, t, e) => ExprLen(c) + StmtsLen(t) + StmtsLen(e) + 10
    case While(c, b) => ExprLen(c) + StmtsLen(b) + 10
    case Loop(b) => StmtsLen(b) + 5
    case For(_, start, end, step, _, b) => ExprLen(start) + 5 + ForLen(end, step, b)
    case Match(e, arms) => ExprLen(e) + ArmsLen(arms) + ArmsTailLen(arms)
    case Break => 5
    case Continue => 5
    case Return(e) => ExprLen(e) + 1
    case Print(e) => ExprLen(e) + 1
    case ExprStmt(e) => ExprLen(e) + 1
  }

  function ForLen(end: Expr, step: Option<Expr>, body: seq<Stmt>): nat
    decreases body, 1
  {
    ExprLen(end) + StmtsLen(body) + StepLen(step) + 27
  }

  function StepLen(step: Option<Expr>): nat {
    if step.None? then 5 else ExprLen(step.value)
  }

  function StmtsLen(ss: seq<Stmt>): nat
    decreases ss, 0
  {
    if ss == [] then 0 else StmtsLen(ss[..|ss| - 1]) + StmtLen(ss[|ss| - 1])
  }

  function ArmLen(a: Arm): nat
    decreases a, 0
  {
    StmtsLen(a.body) + if a.pat.Wildcard? then 1 else 18
  }

  function ArmsLen(arms: seq<Arm>): nat
    decreases arms, 0
  {
    if arms == [] then 0 else ArmsLen(arms[..|arms| - 1]) + ArmLen(arms[|arms| - 1])
  }

  /** A last literal arm is followed by the Pop that drops an unmatched scrutinee. */
  function ArmsTailLen(arms: seq<Arm>): nat {
    if arms != [] && arms[|arms| - 1].pat.LitPat? then 1 else 0
  }

  /** The cells of a statement at address `base`, inside a loop with the given jump targets. */
  function StmtCells(n: Names, s: Stmt, base: nat, brk: Target, cont: Target): (r: seq<Cell>)
    ensures |r| == StmtLen(s)
    decreases s
  {
    hide IndexOf, ForLen, BinByte, CompoundOp, ExprCells, ExprLen, ForCells, ArmsLen;
    match s
    case Let(x, e) => ExprCells(n, e) + OpImm(STORELOCAL, IndexOf(n.locals, x))
    case Assign(x, e) => ExprCells(n, e) + OpImm(STORELOCAL, IndexOf(n.locals, x))
    case CompoundAssign(x, op, e) =>
      var i := IndexOf(n.locals, x);
      OpImm(LOADLOCAL, i) + ExprCells(n, e) + Op(BinByte(CompoundOp(op))) + OpImm(STORELOCAL, i)
    case If(c, t, e) =>
      var tbase := base + ExprLen(c) + 5;
      var ebase := tbase + StmtsLen(t) + 5;
      ExprCells(n, c) + OpRef(JZ, At(ebase)) + StmtsCells(n, t, tbase, brk, cont)
      + OpRef(JMP, At(ebase + StmtsLen(e))) + StmtsCells(n, e, ebase, brk, cont)
    case While(c, b) =>
      var bbase := base + ExprLen(c) + 5;
      var next := bbase + StmtsLen(b);
      ExprCells(n, c) + OpRef(JZ, At(next + 5)) + StmtsCells(n, b, bbase, At(next + 5), At(next))
      + OpRef(JMP, At(base))
    case Loop(b) =>
      var next := base + StmtsLen(b);
      StmtsCells(n, b, base, At(next + 5), At(next)) + OpRef(JMP, At(base))
    case For(x, start, end, step, kind, b) =>
      ExprCells(n, start) + OpImm(STORELOCAL, IndexOf(n.locals, x))
      + ForCells(n, x, end, step, kind, b, base + ExprLen(start) + 5)
    case Match(e, arms) =>
      var abase := base + ExprLen(e);
      var end := abase + ArmsLen(arms) + ArmsTailLen(arms);
      ExprCells(n, e) + ArmsCells(n, arms, abase, end, brk, cont)
      + (if ArmsTailLen(arms) == 1 then Op(POP) else [])
    case Break => OpRef(JMP, brk)
    case Continue => OpRef(JMP, cont)
    case Return(e) => ExprCells(n, e) + Op(RET)
    case Print(e) => ExprCells(n, e) + Op(if e.StrLit? then PRINT else PRINTNUM)
    case ExprStmt(e) => ExprCells(n, e) + Op(POP)
  }

  /** The part of a `for` statement that its back jump returns to. */
  function ForCells(n: Names, x: string, end: Expr, step: Option<Expr>, kind: RangeKind, body: seq<Stmt>, top: nat)
    : (r: seq<Cell>)
    ensures |r| == ForLen(end, step, body)
    decreases body, 1
  {
    var i := IndexOf(n.locals, x);
    var bbase := top + ExprLen(end) + 11;
    var next := bbase + StmtsLen(body);
    ForHead(n, i, end, kind, At(top + ForLen(end, step, body)))
    + StmtsCells(n, body, bbase, At(top + ForLen(end, step, body)), At(next))
    + ForTail(n, i, step, top)
  }

  function ForHead(n: Names, i: nat, end: Expr, kind: RangeKind, exit: Target): (r: seq<Cell>)
    ensures |r| == ExprLen(end) + 11
  {
    OpImm(LOADLOCAL, i) + ExprCells(n, end) + Op(if kind.Exclusive? then CMPLT else CMPLE) + OpRef(JZ, exit)
  }

  function ForTail(n: Names, i: nat, step: Option<Expr>, top: nat): (r: seq<Cell>)
    ensures |r| == StepLen(step) + 16
  {
    OpImm(LOADLOCAL, i) + (if step.None? then OpImm(PUSH, 1) else ExprCells(n, step.value)) + Op(ADD)
    + OpImm(STORELOCAL, i) + OpRef(JMP, At(top))
  }

  function StmtsCells(n: Names, ss: seq<Stmt>, base: nat, brk: Target, cont: Target): (r: seq<Cell>)
    ensures |r| == StmtsLen(ss)
    decreases ss, 0
  {
    if ss == [] then [] else
    var k := |ss| - 1;
    StmtsCells(n, ss[..k], base, brk, cont) + StmtCells(n, ss[k], base + StmtsLen(ss[..k]), brk, cont)
  }

  function ArmCells(n: Names, a: Arm, base: nat, end: nat, brk: Target, cont: Target): (r: seq<Cell>)
    ensures |r| == ArmLen(a)
    decreases a, 0
  {
    if a.pat.Wildcard? then Op(POP) + StmtsCells(n, a.body, base + 1, brk, cont)
    else
      ArmTest(a.pat.lit, At(base + ArmLen(a))) + StmtsCells(n, a.body, base + 13, brk, cont) + OpRef(JMP, At(end))
  }

  function ArmTest(lit: i32, miss: Target): (r: seq<Cell>)
    ensures |r| == 13
  {
    Op(DUP) + OpImm(PUSH, lit) + Op(CMPEQ) + OpRef(JZ, miss) + Op(POP)
  }

  function ArmsCells(n: Names, arms: seq<Arm>, base: nat, end: nat, brk: Target, cont: Target): (r: seq<Cell>)
    ensures |r| == ArmsLen(arms)
    decreases arms, 0
  {
    if arms == [] then [] else
    var k := |arms| - 1;
    ArmsCells(n, arms[..k], base, end, brk, cont) + ArmCells(n, arms[k], base + ArmsLen(arms[..k]), end, brk, cont)
  }

  /** The tables and cells of a function: its parameters take the first slots, and it ends by returning 0. */
  function FnNames(pool: seq<seq<u8>>, consts: seq<(string, i32)>, f: FnDef): Names {
    StmtsNames(AddLocals(Names([], pool, consts), f.params), f.body)
  }

  /** The slots of a function; they do not depend on the strings seen before it. */
  function SlotsOf(consts: seq<(string, i32)>, f: FnDef): seq<string> {
    FnNames([], consts, f).locals
  }

  function FnLen(f: FnDef): nat {
    StmtsLen(f.body) + 6
  }

  function FnCells(n: Names, f: FnDef, base: nat): (r: seq<Cell>)
    ensures |r| == FnLen(f)
  {
    StmtsCells(n, f.body, base, At(0), At(0)) + OpImm(PUSH, 0) + Op(RET)
  }

  /** The string pool after emitting the functions in order. */
  function PoolOf(fns: seq<FnDef>, consts: seq<(string, i32)>): seq<seq<u8>> {
    if fns == [] then [] else FnNames(PoolOf(fns[..|fns| - 1], consts), consts, fns[|fns| - 1]).pool
  }

  function FnsLen(fns: seq<FnDef>): nat {
    if fns == [] then 0 else FnsLen(fns[..|fns| - 1]) + FnLen(fns[|fns| - 1])
  }

  /** The entry addresses, in order. */
  function Entries(fns: seq<FnDef>): (r: seq<(string, nat)>)
    ensures |r| == |fns|
  {
    if fns == [] then [] else Entries(fns[..|fns| - 1]) + [(fns[|fns| - 1].name, FnsLen(fns[..|fns| - 1]))]
  }

  /** Every function's cells, each with the slots of that function and the final string pool. */
  function FnsCells(fns: seq<FnDef>, consts: seq<(string, i32)>, pool: seq<seq<u8>>): (r: seq<Cell>)
    ensures |r| == FnsLen(fns)
  {
    if fns == [] then [] else
    var k := |fns| - 1;
    FnsCells(fns[..k], consts, pool)
    + FnCells(Names(SlotsOf(consts, fns[k]), pool, consts), fns[k], FnsLen(fns[..k]))
  }

  function FindEntry(entries: seq<(string, nat)>, name: string): Option<nat> {
    if entries == [] then None
    else if entries[0].0 == name then Some(entries[0].1)
    else FindEntry(entries[1..], name)
  }

  /** A call of an unknown function gets the address u32::MAX. */
  function EntryAddr(entries: seq<(string, nat)>, name: string): nat {
    var a := FindEntry(entries, name);
    if a.None? then 0xFFFF_FFFF else a.value
  }

  /** The byte in a cell. Addresses that have not been supplied yet are zero. */
  function CellByte(c: Cell, entries: seq<(string, nat)>): u8 {
    match c
    case Byte(b) => b
    case Addr(t, k) =>
      if k >= 4 then 0
      else if t.At? then Le32(t.addr)[k]
      else if t.FnEntry? then Le32(EntryAddr(entries, t.fname))[k]
      else 0
  }

  function CellBytes(cs: seq<Cell>, entries: seq<(string, nat)>): (r: seq<u8>)
    ensures |r| == |cs|
    ensures forall i :: 0 <= i < |cs| ==> r[i] == CellByte(cs[i], entries)
  {
    seq(|cs|, i requires 0 <= i < |cs| => CellByte(cs[i], entries))
  }

  datatype Image = Image(code: seq<u8>, pool: seq<seq<u8>>, entry: nat)

  /** The complete program: code, string pool and the address of `main`. */
  function ProgramImage(p: Program): Image {
    var pool := PoolOf(p.fns, p.consts);
    var entries := Entries(p.fns);
    var m := FindEntry(entries, "main");
    Image(CellBytes(FnsCells(p.fns, p.consts, pool), entries), pool, if m.None? then 0 else m.value)
  }
}
