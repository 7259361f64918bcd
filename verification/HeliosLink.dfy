/** Where the code of a program sits in memory, and how much stack its functions need. */
module HeliosLink {
  import opened Bits
  import opened HeliosAst
  import opened Wrappers
  import opened HeliosCode
  import opened HeliosVm

  /** The code at pc is the given cells with every address filled in. */
  ghost predicate HasCells(code: seq<u8>, pc: nat, cs: seq<Cell>, entries: seq<(string, nat)>) {
    && pc + |cs| <= |code|
    && forall i :: 0 <= i < |cs| ==> code[pc + i] == CellByte(cs[i], entries)
  }

  lemma SplitCells(code: seq<u8>, pc: nat, a: seq<Cell>, b: seq<Cell>, entries: seq<(string, nat)>)
    requires HasCells(code, pc, a + b, entries)
    ensures HasCells(code, pc, a, entries)
    ensures HasCells(code, pc + |a|, b, entries)
  {
    forall i | 0 <= i < |a|
      ensures code[pc + i] == CellByte(a[i], entries)
    {
      assert (a + b)[i] == a[i];
    }
    forall i | 0 <= i < |b|
      ensures code[pc + |a| + i] == CellByte(b[i], entries)
    {
      assert (a + b)[|a| + i] == b[i];
      assert code[pc + (|a| + i)] == CellByte((a + b)[|a| + i], entries);
    }
  }

  /** What the machine decodes where an opcode and its operand were emitted. */
  lemma DecodeOp(code: seq<u8>, pc: nat, b: u8, entries: seq<(string, nat)>)
    requires HasCells(code, pc, Op(b), entries)
    ensures pc < |code| && code[pc] == b
  {
    assert Op(b)[0] == Byte(b);
    assert code[pc + 0] == CellByte(Op(b)[0], entries);
  }

  lemma WordOfLe32(code: seq<u8>, pc: nat, x: int)
    requires pc + 4 <= |code|
    requires forall i :: 0 <= i < 4 ==> code[pc + i] == Le32(x)[i]
    ensures WordAt(code, pc) == x % 0x1_0000_0000
  {
    assert code[pc + 0] == Le32(x)[0];
    Le32RoundTrip(x);
  }

  lemma ImmBytes(code: seq<u8>, pc: nat, b: u8, n: int, entries: seq<(string, nat)>)
    requires HasCells(code, pc, OpImm(b, n), entries)
    ensures pc + 5 <= |code| && code[pc] == b
    ensures forall i :: 0 <= i < 4 ==> code[pc + 1 + i] == Le32(n)[i]
  {
    hide Le32;
    var cs := OpImm(b, n);
    assert code[pc + 0] == CellByte(cs[0], entries);
    forall i | 0 <= i < 4
      ensures code[pc + 1 + i] == Le32(n)[i]
    {
      assert cs[1 + i] == Lits(Le32(n))[i];
      assert code[pc + (1 + i)] == CellByte(cs[1 + i], entries);
    }
  }

  lemma DecodeImm(code: seq<u8>, pc: nat, b: u8, n: int, entries: seq<(string, nat)>)
    requires HasCells(code, pc, OpImm(b, n), entries)
    requires -0x8000_0000 <= n < 0x1_0000_0000
    ensures pc + 5 <= |code|
    ensures b == PUSH && n < 0x8000_0000 ==> Decode(code, pc) == IPush(n)
    ensures b == LOADLOCAL && n >= 0 ==> Decode(code, pc) == ILoad(n)
    ensures b == STORELOCAL && n >= 0 ==> Decode(code, pc) == IStore(n)
  {
    hide Le32, Decode, WordAt;
    ImmBytes(code, pc, b, n, entries);
    WordOfLe32(code, pc + 1, n);
    DecodeOperand(code, pc, n);
  }

  /** Which instruction an opcode with a 32-bit operand is. */
  lemma DecodeOperand(code: seq<u8>, pc: nat, n: int)
    requires pc + 5 <= |code| && WordAt(code, pc + 1) == n % 0x1_0000_0000
    requires -0x8000_0000 <= n < 0x1_0000_0000
    ensures code[pc] == PUSH && n < 0x8000_0000 ==> Decode(code, pc) == IPush(n)
    ensures code[pc] == LOADLOCAL && n >= 0 ==> Decode(code, pc) == ILoad(n)
    ensures code[pc] == STORELOCAL && n >= 0 ==> Decode(code, pc) == IStore(n)
    ensures code[pc] == JMP && n >= 0 ==> Decode(code, pc) == IJmp(n)
    ensures code[pc] == JZ && n >= 0 ==> Decode(code, pc) == IJz(n)
    ensures code[pc] == CALL && n >= 0 ==> Decode(code, pc) == ICall(n)
  {
    hide WordAt;
  }

  lemma RefBytes(code: seq<u8>, pc: nat, b: u8, t: Target, a: nat, entries: seq<(string, nat)>)
    requires HasCells(code, pc, OpRef(b, t), entries)
    requires t == At(a) || (t.FnEntry? && EntryAddr(entries, t.fname) == a)
    ensures pc + 5 <= |code| && code[pc] == b
    ensures forall i :: 0 <= i < 4 ==> code[pc + 1 + i] == Le32(a)[i]
  {
    hide Le32;
    var cs := OpRef(b, t);
    assert code[pc + 0] == CellByte(cs[0], entries);
    forall i | 0 <= i < 4
      ensures code[pc + 1 + i] == Le32(a)[i]
    {
      assert cs[1 + i] == Addr(t, i);
      assert code[pc + (1 + i)] == CellByte(cs[1 + i], entries);
    }
  }

  lemma DecodeRef(code: seq<u8>, pc: nat, b: u8, t: Target, a: nat, entries: seq<(string, nat)>)
    requires HasCells(code, pc, OpRef(b, t), entries)
    requires t == At(a) || (t.FnEntry? && EntryAddr(entries, t.fname) == a)
    requires a < 0x1_0000_0000
    ensures pc + 5 <= |code|
    ensures b == JMP ==> Decode(code, pc) == IJmp(a)
    ensures b == JZ ==> Decode(code, pc) == IJz(a)
    ensures b == CALL ==> Decode(code, pc) == ICall(a)
  {
    hide Le32, Decode, WordAt;
    RefBytes(code, pc, b, t, a, entries);
    WordOfLe32(code, pc + 1, a);
    DecodeOperand(code, pc, a);
  }

  lemma DecodeStr(code: seq<u8>, pc: nat, i: u16, entries: seq<(string, nat)>)
    requires HasCells(code, pc, [Byte(PUSHSTR)] + Lits(Le16(i)), entries)
    ensures pc + 3 <= |code| && Decode(code, pc) == IPushStr(i)
  {
    var cs := [Byte(PUSHSTR)] + Lits(Le16(i));
    assert code[pc + 0] == CellByte(cs[0], entries);
    assert code[pc + 1] == CellByte(cs[1], entries);
    assert code[pc + 2] == CellByte(cs[2], entries);
    assert cs[1] == Lits(Le16(i))[0] && cs[2] == Lits(Le16(i))[1];
    Le16RoundTrip(i);
  }

  /** Everything an expression or statement mentions is in the tables. */
  ghost predicate CoversExpr(n: Names, e: Expr)
    decreases e
  {
    match e
    case StrLit(s) => s + [0] in n.pool
    case Var(x) => FindConst(n.consts, x).Some? || x in n.locals
    case Un(_, a) => CoversExpr(n, a)
    case Bin(a, _, b) => CoversExpr(n, a) && CoversExpr(n, b)
    case Cast(a, _) => CoversExpr(n, a)
    case Call(_, args) => CoversArgs(n, args)
    case _ => true
  }

  ghost predicate CoversArgs(n: Names, args: seq<Expr>)
    decreases args
  {
    args == [] || (CoversArgs(n, args[..|args| - 1]) && CoversExpr(n, args[|args| - 1]))
  }

  ghost predicate CoversStmt(n: Names, s: Stmt)
    decreases s
  {
    match s
    case Let(x, e) => x in n.locals && CoversExpr(n, e)
    case Assign(x, e) => x in n.locals && CoversExpr(n, e)
    case CompoundAssign(x, _, e) => x in n.locals && CoversExpr(n, e)
    case If(c, t, e) => CoversExpr(n, c) && CoversStmts(n, t) && CoversStmts(n, e)
    case While(c, b) => CoversExpr(n, c) && CoversStmts(n, b)
    case Loop(b) => CoversStmts(n, b)
    case For(x, start, end, step, _, b) =>
      && x in n.locals && CoversExpr(n, start) && CoversExpr(n, end) && CoversStmts(n, b)
      && (step.Some? ==> CoversExpr(n, step.value))
    case Match(e, arms) => CoversExpr(n, e) && CoversArms(n, arms)
    case Return(e) => CoversExpr(n, e)
    case Print(e) => CoversExpr(n, e)
    case ExprStmt(e) => CoversExpr(n, e)
    case _ => true
  }

  ghost predicate CoversStmts(n: Names, ss: seq<Stmt>)
    decreases ss
  {
    ss == [] || (CoversStmts(n, ss[..|ss| - 1]) && CoversStmt(n, ss[|ss| - 1]))
  }

  ghost predicate CoversArms(n: Names, arms: seq<Arm>)
    decreases arms
  {
    arms == [] || (CoversArms(n, arms[..|arms| - 1]) && CoversStmts(n, arms[|arms| - 1].body))
  }

  function Max(a: nat, b: nat): nat {
    if a > b then a else b
  }

  /** Stack slots an expression uses above the frame's locals, its result included. */
  function ExprDepth(e: Expr): nat
    decreases e
  {
    match e
    case Un(_, a) => ExprDepth(a)
    case Bin(a, _, b) => Max(ExprDepth(a), 1 + ExprDepth(b))
    case Cast(a, _) => ExprDepth(a)
    case Call(_, args) => Max(ArgsDepth(args), |args| + 1)
    case _ => 1
  }

  function ArgsDepth(args: seq<Expr>): nat
    decreases args
  {
    if args == [] then 0
    else Max(ArgsDepth(args[..|args| - 1]), |args| - 1 + ExprDepth(args[|args| - 1]))
  }

  function StmtDepth(s: Stmt): nat
    decreases s
  {
    match s
    case Let(_, e) => ExprDepth(e)
    case Assign(_, e) => ExprDepth(e)
    case CompoundAssign(_, _, e) => 1 + ExprDepth(e)
    case If(c, t, e) => Max(ExprDepth(c), Max(StmtsDepth(t), StmtsDepth(e)))
    case While(c, b) => Max(ExprDepth(c), StmtsDepth(b))
    case Loop(b) => StmtsDepth(b)
    case For(_, start, end, step, _, b) =>
      Max(Max(ExprDepth(start), 1 + ExprDepth(end)),
          Max(StmtsDepth(b), 1 + (if step.None? then 1 else ExprDepth(step.value))))
    case Match(e, arms) => Max(ExprDepth(e), Max(3, ArmsDepth(arms)))
    case Break => 0
    case Continue => 0
    case Return(e) => ExprDepth(e)
    case Print(e) => ExprDepth(e)
    case ExprStmt(e) => ExprDepth(e)
  }

  function StmtsDepth(ss: seq<Stmt>): nat
    decreases ss
  {
    if ss == [] then 0 else Max(StmtsDepth(ss[..|ss| - 1]), StmtDepth(ss[|ss| - 1]))
  }

  function ArmsDepth(arms: seq<Arm>): nat
    decreases arms
  {
    if arms == [] then 0 else Max(ArmsDepth(arms[..|arms| - 1]), StmtsDepth(arms[|arms| - 1].body))
  }

  /** The most a function needs of the stack at one time. */
  function FrameNeed(consts: seq<(string, i32)>, f: FnDef): nat {
    |SlotsOf(consts, f)| + Max(1, StmtsDepth(f.body))
  }

  function MaxFrame(consts: seq<(string, i32)>, fns: seq<FnDef>): nat {
    if fns == [] then 0 else Max(FrameNeed(consts, fns[0]), MaxFrame(consts, fns[1..]))
  }

  /** Stack for `depth` nested calls besides the running function, each at most k slots. */
  function StackNeed(k: nat, depth: nat): nat {
    if depth == 0 then k else k + StackNeed(k, depth - 1)
  }

  /** A program in memory: the machine holds its image, and k bounds every frame. */
  datatype Linked = Linked(p: Program, m: Machine, entries: seq<(string, nat)>, k: nat)

  function NamesOf(l: Linked, f: FnDef): Names {
    Names(SlotsOf(l.p.consts, f), l.m.pool, l.p.consts)
  }

  ghost predicate FnLinked(l: Linked, name: string) {
    var fd := FindFn(l.p.fns, name);
    fd.Some? ==>
      && FindEntry(l.entries, name).Some?
      && var a := EntryAddr(l.entries, name);
      && HasCells(l.m.code, a, FnCells(NamesOf(l, fd.value), fd.value, a), l.entries)
      && CoversStmts(NamesOf(l, fd.value), fd.value.body)
      && fd.value.params <= SlotsOf(l.p.consts, fd.value)
      && WfFn(l.p, fd.value)
      && FrameNeed(l.p.consts, fd.value) <= l.k
  }

  ghost predicate ValidLinked(l: Linked) {
    && |l.m.code| < 0x1_0000_0000
    && |l.m.pool| <= 0x8000
    && forall name :: FnLinked(l, name)
  }

  lemma LinkedFn(l: Linked, name: string)
    requires ValidLinked(l)
    ensures FnLinked(l, name)
  {
  }
}
