/** Compiled code agrees with its notes at every instruction. */
module HeliosTyping {
  import opened Bits
  import opened HeliosAst
  import opened Wrappers
  import opened HeliosCode
  import opened HeliosVm
  import opened HeliosLink
  import opened HeliosNotes

  /** Every function starts where its entry says, without temporaries. */
  ghost predicate Enters(c: Noted) {
    forall f :: FnEnters(c, f)
  }

  ghost predicate FnEnters(c: Noted, f: string) {
    var fd := FindFn(c.l.p.fns, f);
    fd.Some? ==> Follows(c.ns, EntryAddr(c.l.entries, f), BoundsOf(c.l.p.consts, fd.value), 0)
  }

  /** The tables and bounds of the function whose code is checked. */
  ghost predicate Scope(c: Noted, n: Names, b: Bounds) {
    && |c.l.m.code| < 0x1_0000_0000 && |c.l.m.pool| <= 0x8000 && c.l.k < 0x8000_0000
    && |c.ns| == |c.l.m.code| && Enters(c)
    && n.pool == c.l.m.pool && n.consts == c.l.p.consts
    && b.lo <= b.hi == |n.locals|
  }

  predicate Fit(c: Noted, b: Bounds, d: nat) {
    b.lo <= b.hi && b.hi + d <= c.l.k
  }

  // Single instructions.

  lemma CheckPush(c: Noted, pc: nat, v: i32, b: Bounds, d: nat)
    requires Has(c, pc, OpImm(PUSH, v), Ins(b, d, 5)) && Fit(c, b, d) && FollowsPush(c.ns, pc + 5, b, d + 1, v)
    ensures RangeChecks(c, pc, pc + 5)
  {
    hide OpImm;
    DecodeImm(c.l.m.code, pc, PUSH, v, c.l.entries);
    assert c.ns[pc + 0] == Ins(b, d, 5)[0];
    OneInstr(c, pc, OpImm(PUSH, v), Ins(b, d, 5));
  }

  lemma CheckLoad(c: Noted, pc: nat, i: u32, b: Bounds, d: nat)
    requires Has(c, pc, OpImm(LOADLOCAL, i), Ins(b, d, 5)) && Fit(c, b, d) && Follows(c.ns, pc + 5, b, d + 1)
    ensures RangeChecks(c, pc, pc + 5)
  {
    hide OpImm;
    DecodeImm(c.l.m.code, pc, LOADLOCAL, i, c.l.entries);
    assert c.ns[pc + 0] == Ins(b, d, 5)[0];
    OneInstr(c, pc, OpImm(LOADLOCAL, i), Ins(b, d, 5));
  }

  lemma CheckStore(c: Noted, pc: nat, i: u32, b: Bounds)
    requires Has(c, pc, OpImm(STORELOCAL, i), Ins(b, 1, 5)) && Fit(c, b, 1) && i < b.hi && Follows(c.ns, pc + 5, b, 0)
    ensures RangeChecks(c, pc, pc + 5)
  {
    hide OpImm;
    DecodeImm(c.l.m.code, pc, STORELOCAL, i, c.l.entries);
    assert c.ns[pc + 0] == Ins(b, 1, 5)[0];
    OneInstr(c, pc, OpImm(STORELOCAL, i), Ins(b, 1, 5));
  }

  lemma CheckStr(c: Noted, pc: nat, i: u16, b: Bounds, d: nat)
    requires Has(c, pc, [Byte(PUSHSTR)] + Lits(Le16(i)), Ins(b, d, 3)) && Fit(c, b, d) && Follows(c.ns, pc + 3, b, d + 1)
    ensures RangeChecks(c, pc, pc + 3)
  {
    DecodeStr(c.l.m.code, pc, i, c.l.entries);
    assert c.ns[pc + 0] == Ins(b, d, 3)[0];
    OneInstr(c, pc, [Byte(PUSHSTR)] + Lits(Le16(i)), Ins(b, d, 3));
  }

  lemma CheckBin(c: Noted, pc: nat, op: BinOp, b: Bounds, d: nat)
    requires Has(c, pc, Op(BinByte(op)), Ins(b, d + 2, 1)) && Fit(c, b, d + 2) && Follows(c.ns, pc + 1, b, d + 1)
    ensures RangeChecks(c, pc, pc + 1)
  {
    DecodeOp(c.l.m.code, pc, BinByte(op), c.l.entries);
    assert BinOfByte(BinByte(op)) == Some(op);
    assert c.ns[pc + 0] == Ins(b, d + 2, 1)[0];
    OneInstr(c, pc, Op(BinByte(op)), Ins(b, d + 2, 1));
  }

  lemma CheckUn(c: Noted, pc: nat, o: u8, b: Bounds, d: nat)
    requires o in {NEG, NOT, BNOT, CASTINT, CASTBOOL}
    requires Has(c, pc, Op(o), Ins(b, d + 1, 1)) && Fit(c, b, d + 1) && Follows(c.ns, pc + 1, b, d + 1)
    ensures RangeChecks(c, pc, pc + 1)
  {
    DecodeOp(c.l.m.code, pc, o, c.l.entries);
    assert c.ns[pc + 0] == Ins(b, d + 1, 1)[0];
    OneInstr(c, pc, Op(o), Ins(b, d + 1, 1));
  }

  lemma CheckPop(c: Noted, pc: nat, o: u8, b: Bounds, d: nat)
    requires o in {POP, PRINT, PRINTNUM}
    requires Has(c, pc, Op(o), Ins(b, d + 1, 1)) && Fit(c, b, d + 1) && Follows(c.ns, pc + 1, b, d)
    ensures RangeChecks(c, pc, pc + 1)
  {
    DecodeOp(c.l.m.code, pc, o, c.l.entries);
    assert c.ns[pc + 0] == Ins(b, d + 1, 1)[0];
    OneInstr(c, pc, Op(o), Ins(b, d + 1, 1));
  }

  lemma CheckDup(c: Noted, pc: nat, b: Bounds, d: nat)
    requires Has(c, pc, Op(DUP), Ins(b, d + 1, 1)) && Fit(c, b, d + 1) && Follows(c.ns, pc + 1, b, d + 2)
    ensures RangeChecks(c, pc, pc + 1)
  {
    DecodeOp(c.l.m.code, pc, DUP, c.l.entries);
    assert c.ns[pc + 0] == Ins(b, d + 1, 1)[0];
    OneInstr(c, pc, Op(DUP), Ins(b, d + 1, 1));
  }

  lemma CheckRet(c: Noted, pc: nat, b: Bounds)
    requires Has(c, pc, Op(RET), Ins(b, 1, 1)) && Fit(c, b, 1)
    ensures RangeChecks(c, pc, pc + 1)
  {
    DecodeOp(c.l.m.code, pc, RET, c.l.entries);
    assert c.ns[pc + 0] == Ins(b, 1, 1)[0];
    OneInstr(c, pc, Op(RET), Ins(b, 1, 1));
  }

  lemma CheckJmp(c: Noted, pc: nat, a: u32, b: Bounds, d: nat)
    requires Has(c, pc, OpRef(JMP, At(a)), Ins(b, d, 5)) && Fit(c, b, d) && Follows(c.ns, a, b, d)
    ensures RangeChecks(c, pc, pc + 5)
  {
    hide OpRef;
    DecodeRef(c.l.m.code, pc, JMP, At(a), a, c.l.entries);
    assert c.ns[pc + 0] == Ins(b, d, 5)[0];
    OneInstr(c, pc, OpRef(JMP, At(a)), Ins(b, d, 5));
  }

  lemma CheckJz(c: Noted, pc: nat, a: u32, b: Bounds, d: nat)
    requires Has(c, pc, OpRef(JZ, At(a)), Ins(b, d + 1, 5)) && Fit(c, b, d + 1)
    requires Follows(c.ns, a, b, d) && Follows(c.ns, pc + 5, b, d)
    ensures RangeChecks(c, pc, pc + 5)
  {
    hide OpRef;
    DecodeRef(c.l.m.code, pc, JZ, At(a), a, c.l.entries);
    assert c.ns[pc + 0] == Ins(b, d + 1, 5)[0];
    OneInstr(c, pc, OpRef(JZ, At(a)), Ins(b, d + 1, 5));
  }

  lemma CheckCall(c: Noted, pc: nat, f: string, n: nat, b: Bounds, d: nat)
    requires Has(c, pc, OpRef(CALL, FnEntry(f)), CallNote(b, d + n + 1, n)) && Fit(c, b, d + n + 1)
    requires |c.l.m.code| < 0x1_0000_0000 && FnEnters(c, f)
    requires FindFn(c.l.p.fns, f).Some? && |FindFn(c.l.p.fns, f).value.params| == n
    requires Follows(c.ns, pc + 5, b, d + 1)
    ensures RangeChecks(c, pc, pc + 5)
  {
    hide OpRef, SlotsOf, FindFn;
    var a := EntryAddr(c.l.entries, f);
    DecodeRef(c.l.m.code, pc, CALL, FnEntry(f), a, c.l.entries);
    assert c.ns[pc + 0] == CallNote(b, d + n + 1, n)[0];
    OneInstr(c, pc, OpRef(CALL, FnEntry(f)), CallNote(b, d + n + 1, n));
  }

  // First notes.

  lemma {:induction false} ExprFirst(b: Bounds, e: Expr, d: nat)
    ensures ExprNotes(b, e, d) != [] && ExprNotes(b, e, d)[0] == Start(b, d, None)
    decreases e
  {
    match e
    case Un(_, a) => ExprFirst(b, a, d);
    case Bin(x, _, _) => ExprFirst(b, x, d);
    case Cast(a, _) => ExprFirst(b, a, d);
    case Call(_, args) => ArgsFirst(b, args, d);
    case _ =>
  }

  lemma {:induction false} ArgsFirst(b: Bounds, args: seq<Expr>, d: nat)
    ensures args != [] ==> ArgsNotes(b, args, d) != [] && ArgsNotes(b, args, d)[0] == Start(b, d, None)
    ensures args == [] ==> ArgsNotes(b, args, d) == []
    decreases args
  {
    if args != [] {
      var k := |args| - 1;
      ArgsFirst(b, args[..k], d);
      ExprFirst(b, args[k], d + k);
    }
  }

  lemma {:induction false} StmtFirst(b: Bounds, s: Stmt)
    ensures StmtNotes(b, s) != [] && StmtNotes(b, s)[0] == Start(b, 0, None)
    decreases s
  {
    hide ExprNotes;
    match s
    case Let(_, e) => ExprFirst(b, e, 0);
    case Assign(_, e) => ExprFirst(b, e, 0);
    case CompoundAssign(_, _, _) =>
    case If(c, _, _) => ExprFirst(b, c, 0);
    case While(c, _) => ExprFirst(b, c, 0);
    case Loop(body) => StmtsFirst(b, body);
    case For(_, start, _, _, _, _) => ExprFirst(b, start, 0);
    case Match(e, _) => ExprFirst(b, e, 0);
    case Break =>
    case Continue =>
    case Return(e) => ExprFirst(b, e, 0);
    case Print(e) => ExprFirst(b, e, 0);
    case ExprStmt(e) => ExprFirst(b, e, 0);
  }

  lemma {:induction false} StmtsFirst(b: Bounds, ss: seq<Stmt>)
    ensures StmtsNotes(b, ss) != [] ==> StmtsNotes(b, ss)[0] == Start(b, 0, None)
    ensures ss != [] ==> StmtsNotes(b, ss) != []
    decreases ss, 0
  {
    if ss != [] {
      var k := |ss| - 1;
      StmtsFirst(b, ss[..k]);
      StmtFirst(b, ss[k]);
    }
  }

  lemma ArmFirst(b: Bounds, a: Arm)
    ensures ArmNotes(b, a) != [] && ArmNotes(b, a)[0] == Start(b, 1, None)
  {
  }

  // Expressions.

  ghost predicate ExprReady(c: Noted, n: Names, b: Bounds, e: Expr, pc: nat, d: nat) {
    && Scope(c, n, b) && WfExpr(c.l.p, e) && CoversExpr(n, e)
    && Has(c, pc, ExprCells(n, e), ExprNotes(b, e, d)) && Fit(c, b, d + ExprDepth(e))
    && Follows(c.ns, pc + ExprLen(e), b, d + 1)
  }

  lemma {:induction false} ExprChecks(c: Noted, n: Names, b: Bounds, e: Expr, pc: nat, d: nat)
    requires ExprReady(c, n, b, e, pc, d)
    ensures RangeChecks(c, pc, pc + ExprLen(e))
    decreases e, 1
  {
    hide Has, RangeChecks, Follows, Enters, OpImm, OpRef, Checks, Ins, CallNote;
    match e {
      case IntLit(v) =>
        PushFollows(c, pc + 5, b, d + 1, v);
        CheckPush(c, pc, v, b, d);
      case BoolLit(v) =>
        PushFollows(c, pc + 5, b, d + 1, OfBool(v));
        CheckPush(c, pc, OfBool(v), b, d);
      case StrLit(s) =>
        CheckStr(c, pc, IndexOf(n.pool, s + [0]), b, d);
      case Var(x) =>
        var v := FindConst(n.consts, x);
        if v.Some? {
          PushFollows(c, pc + 5, b, d + 1, v.value);
          CheckPush(c, pc, v.value, b, d);
        } else {
          CheckLoad(c, pc, IndexOf(n.locals, x), b, d);
        }
      case Un(op, a) =>
        Split(c, pc, ExprCells(n, a), Op(UnByte(op)), ExprNotes(b, a, d), Ins(b, d + 1, 1));
        var p := pc + ExprLen(a);
        FirstFollows(c, p, Op(UnByte(op)), Ins(b, d + 1, 1), b, d + 1);
        ExprChecks(c, n, b, a, pc, d);
        DepthPositive(a);
        CheckUn(c, p, UnByte(op), b, d);
        RangesJoin(c, pc, p, p + 1);
      case Cast(a, t) =>
        Split(c, pc, ExprCells(n, a), Op(CastByte(t)), ExprNotes(b, a, d), Ins(b, d + 1, 1));
        var p := pc + ExprLen(a);
        FirstFollows(c, p, Op(CastByte(t)), Ins(b, d + 1, 1), b, d + 1);
        ExprChecks(c, n, b, a, pc, d);
        DepthPositive(a);
        CheckUn(c, p, CastByte(t), b, d);
        RangesJoin(c, pc, p, p + 1);
      case Bin(x, op, y) => BinChecks(c, n, b, e, pc, d);
      case Call(f, args) => CallChecks(c, n, b, e, pc, d);
    }
  }

  lemma PushFollows(c: Noted, pc: nat, b: Bounds, d: nat, v: int)
    requires Follows(c.ns, pc, b, d)
    ensures FollowsPush(c.ns, pc, b, d, v)
  {
  }

  lemma {:induction false} DepthPositive(e: Expr)
    ensures ExprDepth(e) >= 1
    decreases e
  {
    match e
    case Un(_, a) => DepthPositive(a);
    case Bin(x, _, _) => DepthPositive(x);
    case Cast(a, _) => DepthPositive(a);
    case _ =>
  }

  /** The parts of a binary expression: two operands and the operator behind them. */
  lemma BinParts(c: Noted, n: Names, b: Bounds, e: Expr, pc: nat, d: nat)
    requires e.Bin? && ExprReady(c, n, b, e, pc, d)
    ensures var p := pc + ExprLen(e.left);
            var q := p + ExprLen(e.right);
            && ExprReady(c, n, b, e.left, pc, d) && ExprReady(c, n, b, e.right, p, d + 1)
            && Has(c, q, Op(BinByte(e.bop)), Ins(b, d + 2, 1)) && Fit(c, b, d + 2) && Follows(c.ns, q + 1, b, d + 1)
            && pc + ExprLen(e) == q + 1
  {
    hide Has, Follows, Scope, Ins, BinByte, Op, ExprCells, ExprNotes, ExprLen, ExprDepth, WfExpr, CoversExpr;
    BinShape(c.l.p, n, b, e, d);
    var x, op, y := e.left, e.bop, e.right;
    var cx, cy, nx, ny := ExprCells(n, x), ExprCells(n, y), ExprNotes(b, x, d), ExprNotes(b, y, d + 1);
    Split(c, pc, cx + cy, Op(BinByte(op)), nx + ny, Ins(b, d + 2, 1));
    Split(c, pc, cx, cy, nx, ny);
    var p := pc + ExprLen(x);
    ExprFirst(b, y, d + 1);
    FirstFollows(c, p, cy, ny, b, d + 1);
    FirstFollows(c, p + ExprLen(y), Op(BinByte(op)), Ins(b, d + 2, 1), b, d + 2);
    DepthPositive(y);
  }

  lemma BinShape(p: Program, n: Names, b: Bounds, e: Expr, d: nat)
    requires e.Bin?
    ensures ExprCells(n, e) == ExprCells(n, e.left) + ExprCells(n, e.right) + Op(BinByte(e.bop))
    ensures ExprNotes(b, e, d) == ExprNotes(b, e.left, d) + ExprNotes(b, e.right, d + 1) + Ins(b, d + 2, 1)
    ensures ExprLen(e) == ExprLen(e.left) + ExprLen(e.right) + 1
    ensures ExprDepth(e.left) <= ExprDepth(e) && 1 + ExprDepth(e.right) <= ExprDepth(e)
    ensures WfExpr(p, e) ==> WfExpr(p, e.left) && WfExpr(p, e.right)
    ensures CoversExpr(n, e) ==> CoversExpr(n, e.left) && CoversExpr(n, e.right)
  {
    hide Ins, Op, BinByte;
  }

  lemma {:induction false} BinChecks(c: Noted, n: Names, b: Bounds, e: Expr, pc: nat, d: nat)
    requires e.Bin? && ExprReady(c, n, b, e, pc, d)
    ensures RangeChecks(c, pc, pc + ExprLen(e))
    decreases e, 0
  {
    hide Has, RangeChecks, Follows, Fit, Ins, ExprReady, ExprLen, Op, BinByte;
    BinParts(c, n, b, e, pc, d);
    var p := pc + ExprLen(e.left);
    var q := p + ExprLen(e.right);
    ExprChecks(c, n, b, e.left, pc, d);
    ExprChecks(c, n, b, e.right, p, d + 1);
    CheckBin(c, q, e.bop, b, d);
    RangesJoin(c, pc, p, q);
    RangesJoin(c, pc, q, q + 1);
  }

  lemma {:induction false} ArgsChecks(c: Noted, n: Names, b: Bounds, args: seq<Expr>, pc: nat, d: nat)
    requires Scope(c, n, b) && |c.ns| == |c.l.m.code| && (forall i :: 0 <= i < |args| ==> WfExpr(c.l.p, args[i])) && CoversArgs(n, args)
    requires Has(c, pc, ArgsCells(n, args), ArgsNotes(b, args, d)) && Fit(c, b, d + ArgsDepth(args))
    requires Follows(c.ns, pc + ArgsLen(args), b, d + |args|)
    ensures RangeChecks(c, pc, pc + ArgsLen(args))
    ensures 3 * |args| <= ArgsLen(args)
    decreases args, 0
  {
    hide Has, Follows, Enters, Checks, Scope, ExprCells, ExprNotes, ExprLen, WfExpr, CoversExpr, ExprDepth;
    if args == [] {
      assert |c.ns| == |c.l.m.code|;
    } else {
      var k := |args| - 1;
      var c1, c2, n1, n2 := ArgsCells(n, args[..k]), ExprCells(n, args[k]), ArgsNotes(b, args[..k], d), ExprNotes(b, args[k], d + k);
      Split(c, pc, c1, c2, n1, n2);
      var p := pc + ArgsLen(args[..k]);
      ExprFirst(b, args[k], d + k);
      FirstFollows(c, p, c2, n2, b, d + k);
      ArgsChecks(c, n, b, args[..k], pc, d);
      ExprChecks(c, n, b, args[k], p, d + k);
      RangesJoin(c, pc, p, p + ExprLen(args[k]));
      ThreeBytes(args[k]);
    }
  }

  lemma {:induction false} ThreeBytes(e: Expr)
    ensures ExprLen(e) >= 3
    decreases e
  {
    match e
    case Un(_, a) => ThreeBytes(a);
    case Bin(x, _, _) => ThreeBytes(x);
    case Cast(a, _) => ThreeBytes(a);
    case _ =>
  }

  lemma {:induction false} CallChecks(c: Noted, n: Names, b: Bounds, e: Expr, pc: nat, d: nat)
    requires e.Call? && ExprReady(c, n, b, e, pc, d)
    ensures RangeChecks(c, pc, pc + ExprLen(e))
    decreases e, 0
  {
    hide Has, RangeChecks, Follows, Checks, OpImm, OpRef, Ins, CallNote;
    var f, args, m := e.fname, e.args, |e.args|;
    var ca, na := ArgsCells(n, args), ArgsNotes(b, args, d);
    var i2, i3 := Ins(b, d + m, 5), CallNote(b, d + m + 1, m);
    Split(c, pc, ca + OpImm(PUSH, m), OpRef(CALL, FnEntry(f)), na + i2, i3);
    Split(c, pc, ca, OpImm(PUSH, m), na, i2);
    var p := pc + ArgsLen(args);
    FirstFollows(c, p, OpImm(PUSH, m), i2, b, d + m);
    ArgsChecks(c, n, b, args, pc, d);
    PushBeforeCall(c, p + 5, f, b, d, m);
    PieceInside(c, p, OpImm(PUSH, m), i2);
    CheckPush(c, p, m, b, d + m);
    CheckCall(c, p + 5, f, m, b, d);
    RangesJoin(c, pc, p, p + 5);
    RangesJoin(c, pc, p + 5, p + 10);
  }

  lemma PieceInside(c: Noted, pc: nat, cs: seq<Cell>, notes: seq<Note>)
    requires Has(c, pc, cs, notes)
    ensures pc + |cs| <= |c.l.m.code|
  {
  }

  lemma PushBeforeCall(c: Noted, pc: nat, f: string, b: Bounds, d: nat, m: nat)
    requires Has(c, pc, OpRef(CALL, FnEntry(f)), CallNote(b, d + m + 1, m))
    ensures FollowsPush(c.ns, pc, b, d + m + 1, m)
  {
    assert c.ns[pc + 0] == CallNote(b, d + m + 1, m)[0];
  }

  // Statements.

  ghost predicate Targets(c: Noted, b: Bounds, brk: nat, cont: nat, inLoop: bool) {
    inLoop ==> brk < 0x1_0000_0000 && cont < 0x1_0000_0000 && Follows(c.ns, brk, b, 0) && Follows(c.ns, cont, b, 0)
  }

  ghost predicate StmtReady(c: Noted, n: Names, b: Bounds, s: Stmt, pc: nat, brk: nat, cont: nat, inLoop: bool) {
    && Scope(c, n, b) && WfStmt(c.l.p, s, inLoop) && CoversStmt(n, s)
    && Has(c, pc, StmtCells(n, s, pc, At(brk), At(cont)), StmtNotes(b, s)) && Fit(c, b, StmtDepth(s))
    && Follows(c.ns, pc + StmtLen(s), b, 0) && Targets(c, b, brk, cont, inLoop)
  }

  ghost predicate StmtsReady(c: Noted, n: Names, b: Bounds, ss: seq<Stmt>, pc: nat, brk: nat, cont: nat, inLoop: bool) {
    && Scope(c, n, b) && WfStmts(c.l.p, ss, inLoop) && CoversStmts(n, ss)
    && Has(c, pc, StmtsCells(n, ss, pc, At(brk), At(cont)), StmtsNotes(b, ss)) && Fit(c, b, StmtsDepth(ss))
    && Follows(c.ns, pc + StmtsLen(ss), b, 0) && Targets(c, b, brk, cont, inLoop)
  }

  lemma SplitFour(c: Noted, pc: nat, c1: seq<Cell>, c2: seq<Cell>, c3: seq<Cell>, c4: seq<Cell>,
                  n1: seq<Note>, n2: seq<Note>, n3: seq<Note>, n4: seq<Note>)
    requires |c1| == |n1| && |c2| == |n2| && |c3| == |n3| && Has(c, pc, c1 + c2 + c3 + c4, n1 + n2 + n3 + n4)
    ensures Has(c, pc, c1, n1) && Has(c, pc + |c1|, c2, n2) && Has(c, pc + |c1| + |c2|, c3, n3)
    ensures Has(c, pc + |c1| + |c2| + |c3|, c4, n4)
  {
    hide Has;
    Split(c, pc, c1 + c2 + c3, c4, n1 + n2 + n3, n4);
    Split(c, pc, c1 + c2, c3, n1 + n2, n3);
    Split(c, pc, c1, c2, n1, n2);
  }

  lemma SplitFive(c: Noted, pc: nat, c1: seq<Cell>, c2: seq<Cell>, c3: seq<Cell>, c4: seq<Cell>, c5: seq<Cell>,
                  n1: seq<Note>, n2: seq<Note>, n3: seq<Note>, n4: seq<Note>, n5: seq<Note>)
    requires |c1| == |n1| && |c2| == |n2| && |c3| == |n3| && |c4| == |n4|
    requires Has(c, pc, c1 + c2 + c3 + c4 + c5, n1 + n2 + n3 + n4 + n5)
    ensures Has(c, pc, c1, n1) && Has(c, pc + |c1|, c2, n2) && Has(c, pc + |c1| + |c2|, c3, n3)
    ensures Has(c, pc + |c1| + |c2| + |c3|, c4, n4) && Has(c, pc + |c1| + |c2| + |c3| + |c4|, c5, n5)
  {
    hide Has;
    Split(c, pc, c1 + c2 + c3 + c4, c5, n1 + n2 + n3 + n4, n5);
    SplitFour(c, pc, c1, c2, c3, c4, n1, n2, n3, n4);
  }

  /** An expression followed by one instruction that takes its value. */
  lemma {:induction false} ExprThen(c: Noted, n: Names, b: Bounds, e: Expr, pc: nat, d: nat, cs: seq<Cell>,
                                    notes: seq<Note>)
    requires Scope(c, n, b) && WfExpr(c.l.p, e) && CoversExpr(n, e) && Fit(c, b, d + ExprDepth(e))
    requires Has(c, pc, ExprCells(n, e) + cs, ExprNotes(b, e, d) + notes)
    requires notes != [] && notes[0] == Start(b, d + 1, None)
    ensures RangeChecks(c, pc, pc + ExprLen(e)) && Has(c, pc + ExprLen(e), cs, notes)
    ensures Fit(c, b, d + 1)
  {
    hide Has, RangeChecks, Scope, ExprCells, ExprNotes, ExprDepth, WfExpr, CoversExpr;
    Split(c, pc, ExprCells(n, e), cs, ExprNotes(b, e, d), notes);
    FirstFollows(c, pc + ExprLen(e), cs, notes, b, d + 1);
    ExprChecks(c, n, b, e, pc, d);
    DepthPositive(e);
  }

  /** Assigning to a slot. */
  lemma {:induction false} SetChecks(c: Noted, n: Names, b: Bounds, s: Stmt, pc: nat, brk: nat, cont: nat, inLoop: bool)
    requires (s.Let? || s.Assign?) && StmtReady(c, n, b, s, pc, brk, cont, inLoop)
    ensures RangeChecks(c, pc, pc + StmtLen(s))
  {
    hide Has, RangeChecks, Follows, Enters, ExprCells, ExprNotes, ExprDepth, WfExpr, CoversExpr, OpImm, Ins;
    var i := IndexOf(n.locals, s.name);
    ExprThen(c, n, b, s.init, pc, 0, OpImm(STORELOCAL, i), Ins(b, 1, 5));
    CheckStore(c, pc + ExprLen(s.init), i, b);
    RangesJoin(c, pc, pc + ExprLen(s.init), pc + StmtLen(s));
  }

  lemma {:induction false} CompoundChecks(c: Noted, n: Names, b: Bounds, s: Stmt, pc: nat, brk: nat, cont: nat,
                                          inLoop: bool)
    requires s.CompoundAssign? && StmtReady(c, n, b, s, pc, brk, cont, inLoop)
    ensures RangeChecks(c, pc, pc + StmtLen(s))
  {
    hide Has, RangeChecks, Follows, Enters, ExprCells, ExprNotes, ExprDepth, WfExpr, CoversExpr, OpImm, Ins;
    var i, e, op := IndexOf(n.locals, s.name), s.rhs, CompoundOp(s.cop);
    SplitFour(c, pc, OpImm(LOADLOCAL, i), ExprCells(n, e), Op(BinByte(op)), OpImm(STORELOCAL, i),
              Ins(b, 0, 5), ExprNotes(b, e, 1), Ins(b, 2, 1), Ins(b, 1, 5));
    var p := pc + 5;
    var q := p + ExprLen(e);
    ExprFirst(b, e, 1);
    DepthPositive(e);
    FirstFollows(c, p, ExprCells(n, e), ExprNotes(b, e, 1), b, 1);
    FirstFollows(c, q, Op(BinByte(op)), Ins(b, 2, 1), b, 2);
    FirstFollows(c, q + 1, OpImm(STORELOCAL, i), Ins(b, 1, 5), b, 1);
    CheckLoad(c, pc, i, b, 0);
    ExprChecks(c, n, b, e, p, 1);
    CheckBin(c, q, op, b, 0);
    CheckStore(c, q + 1, i, b);
    RangesJoin(c, pc, p, q);
    RangesJoin(c, pc, q, q + 1);
    RangesJoin(c, pc, q + 1, q + 6);
  }

  /** A statement that ends in one instruction taking a value: return, print and expression statements. */
  lemma {:induction false} TakeChecks(c: Noted, n: Names, b: Bounds, s: Stmt, pc: nat, brk: nat, cont: nat,
                                      inLoop: bool)
    requires (s.Return? || s.Print? || s.ExprStmt?) && StmtReady(c, n, b, s, pc, brk, cont, inLoop)
    ensures RangeChecks(c, pc, pc + StmtLen(s))
  {
    hide Has, RangeChecks, Follows, Enters, ExprCells, ExprNotes, ExprDepth, WfExpr, CoversExpr, Ins;
    var e := if s.Return? then s.result else if s.Print? then s.shown else s.e;
    var o := if s.Return? then RET else if s.ExprStmt? then POP else if e.StrLit? then PRINT else PRINTNUM;
    ExprThen(c, n, b, e, pc, 0, Op(o), Ins(b, 1, 1));
    if s.Return? {
      CheckRet(c, pc + ExprLen(e), b);
    } else {
      CheckPop(c, pc + ExprLen(e), o, b, 0);
    }
    RangesJoin(c, pc, pc + ExprLen(e), pc + StmtLen(s));
  }

  lemma {:induction false} StmtsChecks(c: Noted, n: Names, b: Bounds, ss: seq<Stmt>, pc: nat, brk: nat, cont: nat,
                                       inLoop: bool)
    requires StmtsReady(c, n, b, ss, pc, brk, cont, inLoop)
    ensures RangeChecks(c, pc, pc + StmtsLen(ss))
    decreases ss, 0
  {
    hide Has, RangeChecks, Follows, Enters, WfStmt, CoversStmt, StmtCells, StmtNotes, StmtLen, StmtDepth, Checks,
         Targets;
    if ss == [] {
      NoRange(c, n, b, pc);
    } else {
      var k := |ss| - 1;
      var p := pc + StmtsLen(ss[..k]);
      var c1, c2 := StmtsCells(n, ss[..k], pc, At(brk), At(cont)), StmtCells(n, ss[k], p, At(brk), At(cont));
      var n1, n2 := StmtsNotes(b, ss[..k]), StmtNotes(b, ss[k]);
      Split(c, pc, c1, c2, n1, n2);
      StmtFirst(b, ss[k]);
      FirstFollows(c, p, c2, n2, b, 0);
      assert WfStmts(c.l.p, ss[..k], inLoop);
      StmtsChecks(c, n, b, ss[..k], pc, brk, cont, inLoop);
      StmtChecks(c, n, b, ss[k], p, brk, cont, inLoop);
      RangesJoin(c, pc, p, p + StmtLen(ss[k]));
    }
  }

  lemma NoRange(c: Noted, n: Names, b: Bounds, pc: nat)
    requires Scope(c, n, b)
    ensures RangeChecks(c, pc, pc)
  {
  }

  lemma {:induction false} StmtChecks(c: Noted, n: Names, b: Bounds, s: Stmt, pc: nat, brk: nat, cont: nat,
                                      inLoop: bool)
    requires StmtReady(c, n, b, s, pc, brk, cont, inLoop)
    ensures RangeChecks(c, pc, pc + StmtLen(s))
    decreases s, 3
  {
    hide StmtReady, RangeChecks, StmtLen;
    match s
    case Let(_, _) => SetChecks(c, n, b, s, pc, brk, cont, inLoop);
    case Assign(_, _) => SetChecks(c, n, b, s, pc, brk, cont, inLoop);
    case CompoundAssign(_, _, _) => CompoundChecks(c, n, b, s, pc, brk, cont, inLoop);
    case If(_, _, _) => IfChecks(c, n, b, s, pc, brk, cont, inLoop);
    case While(_, _) => WhileChecks(c, n, b, s, pc, brk, cont, inLoop);
    case Loop(_) => LoopChecks(c, n, b, s, pc, brk, cont, inLoop);
    case For(_, _, _, _, _, _) => ForChecks(c, n, b, s, pc, brk, cont, inLoop);
    case Match(_, _) => MatchChecks(c, n, b, s, pc, brk, cont, inLoop);
    case Break => BreakChecks(c, n, b, s, pc, brk, cont, inLoop);
    case Continue => BreakChecks(c, n, b, s, pc, brk, cont, inLoop);
    case Return(_) => TakeChecks(c, n, b, s, pc, brk, cont, inLoop);
    case Print(_) => TakeChecks(c, n, b, s, pc, brk, cont, inLoop);
    case ExprStmt(_) => TakeChecks(c, n, b, s, pc, brk, cont, inLoop);
  }

  lemma BreakChecks(c: Noted, n: Names, b: Bounds, s: Stmt, pc: nat, brk: nat, cont: nat, inLoop: bool)
    requires (s.Break? || s.Continue?) && StmtReady(c, n, b, s, pc, brk, cont, inLoop)
    ensures RangeChecks(c, pc, pc + StmtLen(s))
  {
    hide Has, RangeChecks, Follows, Enters, Ins, OpRef;
    CheckJmp(c, pc, if s.Break? then brk else cont, b, 0);
  }

  lemma {:induction false} IfChecks(c: Noted, n: Names, b: Bounds, s: Stmt, pc: nat, brk: nat, cont: nat, inLoop: bool)
    requires s.If? && StmtReady(c, n, b, s, pc, brk, cont, inLoop)
    ensures RangeChecks(c, pc, pc + StmtLen(s))
    decreases s, 2
  {
    hide Has, RangeChecks, Follows, Enters, Targets, ExprCells, ExprNotes, ExprDepth, WfExpr, CoversExpr, OpRef, Ins,
         StmtsCells, StmtsNotes, WfStmts, CoversStmts, StmtsDepth;
    var e, t, f := s.cond, s.thn, s.els;
    var p := pc + ExprLen(e);
    var tb := p + 5;
    var q := tb + StmtsLen(t);
    var fb := q + 5;
    var end := fb + StmtsLen(f);
    var ct, cf := StmtsCells(n, t, tb, At(brk), At(cont)), StmtsCells(n, f, fb, At(brk), At(cont));
    SplitFive(c, pc, ExprCells(n, e), OpRef(JZ, At(fb)), ct, OpRef(JMP, At(end)), cf,
              ExprNotes(b, e, 0), Ins(b, 1, 5), StmtsNotes(b, t), Ins(b, 0, 5), StmtsNotes(b, f));
    FirstFollows(c, p, OpRef(JZ, At(fb)), Ins(b, 1, 5), b, 1);
    FirstFollows(c, q, OpRef(JMP, At(end)), Ins(b, 0, 5), b, 0);
    StartFollows(c, fb, f, cf, b, end);
    StartFollows(c, tb, t, ct, b, q);
    SmallAddress(c, n, b, end);
    DepthPositive(e);
    ExprChecks(c, n, b, e, pc, 0);
    CheckJz(c, p, fb, b, 0);
    StmtsChecks(c, n, b, t, tb, brk, cont, inLoop);
    CheckJmp(c, q, end, b, 0);
    StmtsChecks(c, n, b, f, fb, brk, cont, inLoop);
    RangesJoin(c, pc, p, tb);
    RangesJoin(c, pc, tb, q);
    RangesJoin(c, pc, q, fb);
    RangesJoin(c, pc, fb, end);
  }

  /** Where statements start there are no temporaries, also when there are no statements. */
  lemma StartFollows(c: Noted, pc: nat, ss: seq<Stmt>, cs: seq<Cell>, b: Bounds, end: nat)
    requires Has(c, pc, cs, StmtsNotes(b, ss)) && end == pc + |cs| && Follows(c.ns, end, b, 0)
    ensures Follows(c.ns, pc, b, 0)
  {
    StmtsFirst(b, ss);
    if StmtsNotes(b, ss) != [] {
      FirstFollows(c, pc, cs, StmtsNotes(b, ss), b, 0);
    }
  }

  lemma SmallAddress(c: Noted, n: Names, b: Bounds, a: nat)
    requires Scope(c, n, b) && Follows(c.ns, a, b, 0)
    ensures a < 0x1_0000_0000
  {
  }

  lemma {:induction false} WhileChecks(c: Noted, n: Names, b: Bounds, s: Stmt, pc: nat, brk: nat, cont: nat,
                                       inLoop: bool)
    requires s.While? && StmtReady(c, n, b, s, pc, brk, cont, inLoop)
    ensures RangeChecks(c, pc, pc + StmtLen(s))
    decreases s, 2
  {
    hide Has, RangeChecks, Follows, Enters, ExprCells, ExprNotes, ExprDepth, WfExpr, CoversExpr, OpRef, Ins,
         StmtsCells, StmtsNotes, WfStmts, CoversStmts, StmtsDepth;
    var e, body := s.cond, s.body;
    var p := pc + ExprLen(e);
    var bb := p + 5;
    var next := bb + StmtsLen(body);
    var cb := StmtsCells(n, body, bb, At(next + 5), At(next));
    SplitFour(c, pc, ExprCells(n, e), OpRef(JZ, At(next + 5)), cb, OpRef(JMP, At(pc)),
              ExprNotes(b, e, 0), Ins(b, 1, 5), StmtsNotes(b, body), Ins(b, 0, 5));
    ExprFirst(b, e, 0);
    FirstFollows(c, pc, ExprCells(n, e), ExprNotes(b, e, 0), b, 0);
    FirstFollows(c, p, OpRef(JZ, At(next + 5)), Ins(b, 1, 5), b, 1);
    FirstFollows(c, next, OpRef(JMP, At(pc)), Ins(b, 0, 5), b, 0);
    StartFollows(c, bb, body, cb, b, next);
    SmallAddress(c, n, b, next + 5);
    DepthPositive(e);
    ExprChecks(c, n, b, e, pc, 0);
    CheckJz(c, p, next + 5, b, 0);
    StmtsChecks(c, n, b, body, bb, next + 5, next, true);
    CheckJmp(c, next, pc, b, 0);
    RangesJoin(c, pc, p, bb);
    RangesJoin(c, pc, bb, next);
    RangesJoin(c, pc, next, next + 5);
  }

  lemma {:induction false} LoopChecks(c: Noted, n: Names, b: Bounds, s: Stmt, pc: nat, brk: nat, cont: nat,
                                      inLoop: bool)
    requires s.Loop? && StmtReady(c, n, b, s, pc, brk, cont, inLoop)
    ensures RangeChecks(c, pc, pc + StmtLen(s))
    decreases s, 2
  {
    hide Has, RangeChecks, Follows, Enters, OpRef, Ins, StmtsCells, StmtsNotes, WfStmts, CoversStmts, StmtsDepth;
    var body := s.body;
    var next := pc + StmtsLen(body);
    var cb := StmtsCells(n, body, pc, At(next + 5), At(next));
    Split(c, pc, cb, OpRef(JMP, At(pc)), StmtsNotes(b, body), Ins(b, 0, 5));
    FirstFollows(c, next, OpRef(JMP, At(pc)), Ins(b, 0, 5), b, 0);
    StartFollows(c, pc, body, cb, b, next);
    SmallAddress(c, n, b, next + 5);
    StmtsChecks(c, n, b, body, pc, next + 5, next, true);
    CheckJmp(c, next, pc, b, 0);
    RangesJoin(c, pc, next, next + 5);
  }

  /** The pieces of a `for` statement at their addresses. */
  lemma ForPieces(c: Noted, n: Names, b: Bounds, s: Stmt, pc: nat, brk: Target, cont: Target)
    requires s.For? && Has(c, pc, StmtCells(n, s, pc, brk, cont), StmtNotes(b, s))
    ensures var x, start := IndexOf(n.locals, s.name), s.start;
            var top := pc + ExprLen(start) + 5;
            var bb := top + ExprLen(s.end) + 11;
            var next := bb + StmtsLen(s.body);
            var exit := top + ForLen(s.end, s.step, s.body);
            && Has(c, pc, ExprCells(n, start) + OpImm(STORELOCAL, x), ExprNotes(b, start, 0) + Ins(b, 1, 5))
            && Has(c, top, ForHead(n, x, s.end, s.kind, At(exit)), HeadNotes(b, s.end))
            && Has(c, bb, StmtsCells(n, s.body, bb, At(exit), At(next)), StmtsNotes(b, s.body))
            && Has(c, next, ForTail(n, x, s.step, top), TailNotes(b, s.step))
  {
    hide Has, ExprCells, ExprNotes, OpImm, Ins, StmtsCells, StmtsNotes, ForHead, ForTail, HeadNotes, TailNotes,
         StmtsLen, ExprLen;
    var x, start := IndexOf(n.locals, s.name), s.start;
    var top := pc + ExprLen(start) + 5;
    var bb := top + ExprLen(s.end) + 11;
    var exit := top + ForLen(s.end, s.step, s.body);
    var ch, nh := ForHead(n, x, s.end, s.kind, At(exit)), HeadNotes(b, s.end);
    var cb, nb := StmtsCells(n, s.body, bb, At(exit), At(bb + StmtsLen(s.body))), StmtsNotes(b, s.body);
    var ct, nt := ForTail(n, x, s.step, top), TailNotes(b, s.step);
    assert ForCells(n, s.name, s.end, s.step, s.kind, s.body, top) == ch + cb + ct;
    Split(c, pc, ExprCells(n, start) + OpImm(STORELOCAL, x), ch + cb + ct, ExprNotes(b, start, 0) + Ins(b, 1, 5), nh + nb + nt);
    Split(c, top, ch + cb, ct, nh + nb, nt);
    Split(c, top, ch, cb, nh, nb);
  }

  lemma {:induction false} ForChecks(c: Noted, n: Names, b: Bounds, s: Stmt, pc: nat, brk: nat, cont: nat, inLoop: bool)
    requires s.For? && StmtReady(c, n, b, s, pc, brk, cont, inLoop)
    ensures RangeChecks(c, pc, pc + StmtLen(s))
    decreases s, 2
  {
    hide Has, RangeChecks, Follows, Enters, ExprCells, ExprNotes, ExprDepth, WfExpr, CoversExpr, OpImm, Ins,
         StmtsCells, StmtsNotes, WfStmts, CoversStmts, StmtsDepth, ForHead, ForTail, HeadNotes, TailNotes, StmtsLen,
         StmtCells, StmtNotes;
    var x, start, body := IndexOf(n.locals, s.name), s.start, s.body;
    var p := pc + ExprLen(start);
    var top := p + 5;
    var bb := top + ExprLen(s.end) + 11;
    var next := bb + StmtsLen(body);
    var exit := top + ForLen(s.end, s.step, body);
    var ch, cb, ct := ForHead(n, x, s.end, s.kind, At(exit)), StmtsCells(n, body, bb, At(exit), At(next)), ForTail(n, x, s.step, top);
    ForPieces(c, n, b, s, pc, At(brk), At(cont));
    ExprThen(c, n, b, start, pc, 0, OpImm(STORELOCAL, x), Ins(b, 1, 5));
    HeadFirst(b, s.end);
    TailFirst(b, s.step);
    FirstFollows(c, top, ch, HeadNotes(b, s.end), b, 0);
    FirstFollows(c, next, ct, TailNotes(b, s.step), b, 0);
    StartFollows(c, bb, body, cb, b, next);
    SmallAddress(c, n, b, exit);
    CheckStore(c, p, x, b);
    HeadChecks(c, n, b, s, top, exit);
    StmtsChecks(c, n, b, body, bb, exit, next, true);
    TailChecks(c, n, b, s, next, top);
    RangesJoin(c, pc, p, top);
    RangesJoin(c, pc, top, bb);
    RangesJoin(c, pc, bb, next);
    RangesJoin(c, pc, next, exit);
  }

  lemma HeadFirst(b: Bounds, end: Expr)
    ensures HeadNotes(b, end) != [] && HeadNotes(b, end)[0] == Start(b, 0, None)
  {
  }

  lemma TailFirst(b: Bounds, step: Option<Expr>)
    ensures TailNotes(b, step) != [] && TailNotes(b, step)[0] == Start(b, 0, None)
  {
  }

  lemma {:induction false} HeadChecks(c: Noted, n: Names, b: Bounds, s: Stmt, top: nat, exit: nat)
    requires s.For? && Scope(c, n, b) && s.name in n.locals && WfExpr(c.l.p, s.end) && CoversExpr(n, s.end)
    requires Has(c, top, ForHead(n, IndexOf(n.locals, s.name), s.end, s.kind, At(exit)), HeadNotes(b, s.end))
    requires Fit(c, b, 1 + ExprDepth(s.end)) && exit < 0x1_0000_0000
    requires Follows(c.ns, exit, b, 0) && Follows(c.ns, top + ExprLen(s.end) + 11, b, 0)
    ensures RangeChecks(c, top, top + ExprLen(s.end) + 11)
  {
    hide Has, RangeChecks, Follows, Enters, ExprCells, ExprNotes, ExprDepth, WfExpr, CoversExpr, OpImm, OpRef, Ins;
    var x, e := IndexOf(n.locals, s.name), s.end;
    var op := if s.kind.Exclusive? then BinOp.Lt else BinOp.Le;
    SplitFour(c, top, OpImm(LOADLOCAL, x), ExprCells(n, e), Op(BinByte(op)), OpRef(JZ, At(exit)),
              Ins(b, 0, 5), ExprNotes(b, e, 1), Ins(b, 2, 1), Ins(b, 1, 5));
    var p := top + 5;
    var q := p + ExprLen(e);
    ExprFirst(b, e, 1);
    DepthPositive(e);
    FirstFollows(c, p, ExprCells(n, e), ExprNotes(b, e, 1), b, 1);
    FirstFollows(c, q, Op(BinByte(op)), Ins(b, 2, 1), b, 2);
    FirstFollows(c, q + 1, OpRef(JZ, At(exit)), Ins(b, 1, 5), b, 1);
    CheckLoad(c, top, x, b, 0);
    ExprChecks(c, n, b, e, p, 1);
    CheckBin(c, q, op, b, 0);
    CheckJz(c, q + 1, exit, b, 0);
    RangesJoin(c, top, p, q);
    RangesJoin(c, top, q, q + 1);
    RangesJoin(c, top, q + 1, q + 6);
  }

  lemma {:induction false} TailChecks(c: Noted, n: Names, b: Bounds, s: Stmt, next: nat, top: nat)
    requires s.For? && Scope(c, n, b) && s.name in n.locals
    requires s.step.Some? ==> WfExpr(c.l.p, s.step.value) && CoversExpr(n, s.step.value)
    requires Has(c, next, ForTail(n, IndexOf(n.locals, s.name), s.step, top), TailNotes(b, s.step))
    requires Fit(c, b, 1 + if s.step.None? then 1 else ExprDepth(s.step.value))
    requires Follows(c.ns, top, b, 0) && Follows(c.ns, next + StepLen(s.step) + 16, b, 0)
    ensures RangeChecks(c, next, next + StepLen(s.step) + 16)
  {
    hide Has, RangeChecks, Follows, Enters, ExprCells, ExprNotes, ExprDepth, WfExpr, CoversExpr, OpImm, OpRef, Ins;
    var x := IndexOf(n.locals, s.name);
    var ci := if s.step.None? then OpImm(PUSH, 1) else ExprCells(n, s.step.value);
    var ni := if s.step.None? then Ins(b, 1, 5) else ExprNotes(b, s.step.value, 1);
    SplitFive(c, next, OpImm(LOADLOCAL, x), ci, Op(ADD), OpImm(STORELOCAL, x), OpRef(JMP, At(top)),
              Ins(b, 0, 5), ni, Ins(b, 2, 1), Ins(b, 1, 5), Ins(b, 0, 5));
    var p := next + 5;
    var q := p + StepLen(s.step);
    if s.step.Some? {
      ExprFirst(b, s.step.value, 1);
      DepthPositive(s.step.value);
    }
    FirstFollows(c, p, ci, ni, b, 1);
    FirstFollows(c, q, Op(ADD), Ins(b, 2, 1), b, 2);
    FirstFollows(c, q + 1, OpImm(STORELOCAL, x), Ins(b, 1, 5), b, 1);
    FirstFollows(c, q + 6, OpRef(JMP, At(top)), Ins(b, 0, 5), b, 0);
    SmallAddress(c, n, b, top);
    CheckLoad(c, next, x, b, 0);
    if s.step.None? {
      PushFollows(c, q, b, 2, 1);
      CheckPush(c, p, 1, b, 1);
    } else {
      ExprChecks(c, n, b, s.step.value, p, 1);
    }
    CheckBin(c, q, BinOp.Add, b, 0);
    CheckStore(c, q + 1, x, b);
    CheckJmp(c, q + 6, top, b, 0);
    RangesJoin(c, next, p, q);
    RangesJoin(c, next, q, q + 1);
    RangesJoin(c, next, q + 1, q + 6);
    RangesJoin(c, next, q + 6, q + 11);
  }

  ghost predicate ArmReady(c: Noted, n: Names, b: Bounds, a: Arm, base: nat, end: nat, brk: nat, cont: nat,
                           inLoop: bool) {
    && Scope(c, n, b) && WfStmts(c.l.p, a.body, inLoop) && CoversStmts(n, a.body)
    && Has(c, base, ArmCells(n, a, base, end, At(brk), At(cont)), ArmNotes(b, a))
    && Fit(c, b, 3) && Fit(c, b, StmtsDepth(a.body)) && Targets(c, b, brk, cont, inLoop)
    && Follows(c.ns, end, b, 0)
    && (if a.pat.Wildcard? then base + ArmLen(a) == end else Follows(c.ns, base + ArmLen(a), b, 1))
  }

  lemma {:induction false} ArmChecks(c: Noted, n: Names, b: Bounds, a: Arm, base: nat, end: nat, brk: nat, cont: nat,
                                     inLoop: bool)
    requires ArmReady(c, n, b, a, base, end, brk, cont, inLoop)
    ensures RangeChecks(c, base, base + ArmLen(a))
    decreases a, 0
  {
    hide Has, RangeChecks, Follows, Enters, Targets, OpRef, Ins, StmtsCells, StmtsNotes, WfStmts, CoversStmts,
         StmtsDepth, ArmTest, TestNotes, StmtsLen;
    SmallAddress(c, n, b, end);
    if a.pat.Wildcard? {
      var cb := StmtsCells(n, a.body, base + 1, At(brk), At(cont));
      Split(c, base, Op(POP), cb, Ins(b, 1, 1), StmtsNotes(b, a.body));
      StartFollows(c, base + 1, a.body, cb, b, end);
      CheckPop(c, base, POP, b, 0);
      StmtsChecks(c, n, b, a.body, base + 1, brk, cont, inLoop);
      RangesJoin(c, base, base + 1, end);
    } else {
      var p := base + 13;
      var q := p + StmtsLen(a.body);
      var miss := base + ArmLen(a);
      var cb := StmtsCells(n, a.body, p, At(brk), At(cont));
      Split(c, base, ArmTest(a.pat.lit, At(miss)) + cb, OpRef(JMP, At(end)), TestNotes(b) + StmtsNotes(b, a.body), Ins(b, 0, 5));
      Split(c, base, ArmTest(a.pat.lit, At(miss)), cb, TestNotes(b), StmtsNotes(b, a.body));
      FirstFollows(c, q, OpRef(JMP, At(end)), Ins(b, 0, 5), b, 0);
      StartFollows(c, p, a.body, cb, b, q);
      TestChecks(c, n, b, a.pat.lit, base, miss);
      StmtsChecks(c, n, b, a.body, p, brk, cont, inLoop);
      CheckJmp(c, q, end, b, 0);
      RangesJoin(c, base, p, q);
      RangesJoin(c, base, q, q + 5);
    }
  }

  lemma TestChecks(c: Noted, n: Names, b: Bounds, lit: i32, base: nat, miss: nat)
    requires Scope(c, n, b) && Has(c, base, ArmTest(lit, At(miss)), TestNotes(b)) && Fit(c, b, 3)
    requires Follows(c.ns, miss, b, 1) && Follows(c.ns, base + 13, b, 0)
    ensures RangeChecks(c, base, base + 13)
  {
    hide Has, RangeChecks, Follows, Enters, OpImm, OpRef, Ins;
    MissSmall(c, n, b, miss);
    SplitFive(c, base, Op(DUP), OpImm(PUSH, lit), Op(CMPEQ), OpRef(JZ, At(miss)), Op(POP),
              Ins(b, 1, 1), Ins(b, 2, 5), Ins(b, 3, 1), Ins(b, 2, 5), Ins(b, 1, 1));
    FirstFollows(c, base + 1, OpImm(PUSH, lit), Ins(b, 2, 5), b, 2);
    FirstFollows(c, base + 6, Op(CMPEQ), Ins(b, 3, 1), b, 3);
    FirstFollows(c, base + 7, OpRef(JZ, At(miss)), Ins(b, 2, 5), b, 2);
    FirstFollows(c, base + 12, Op(POP), Ins(b, 1, 1), b, 1);
    PushFollows(c, base + 6, b, 3, lit);
    CheckDup(c, base, b, 0);
    CheckPush(c, base + 1, lit, b, 2);
    CheckBin(c, base + 6, BinOp.Eq, b, 1);
    CheckJz(c, base + 7, miss, b, 1);
    CheckPop(c, base + 12, POP, b, 0);
    RangesJoin(c, base, base + 1, base + 6);
    RangesJoin(c, base, base + 6, base + 7);
    RangesJoin(c, base, base + 7, base + 12);
    RangesJoin(c, base, base + 12, base + 13);
  }

  lemma MissSmall(c: Noted, n: Names, b: Bounds, a: nat)
    requires Scope(c, n, b) && Follows(c.ns, a, b, 1)
    ensures a < 0x1_0000_0000
  {
  }

  lemma {:induction false} ArmsChecks(c: Noted, n: Names, b: Bounds, arms: seq<Arm>, base: nat, end: nat,
                                      brk: nat, cont: nat, inLoop: bool)
    requires Scope(c, n, b) && (forall i :: 0 <= i < |arms| ==> WfStmts(c.l.p, arms[i].body, inLoop)) && CoversArms(n, arms)
    requires forall i :: 0 <= i < |arms| - 1 ==> arms[i].pat.LitPat?
    requires Has(c, base, ArmsCells(n, arms, base, end, At(brk), At(cont)), ArmsNotes(b, arms))
    requires Fit(c, b, 3) && Fit(c, b, ArmsDepth(arms)) && Targets(c, b, brk, cont, inLoop) && Follows(c.ns, end, b, 0)
    requires arms != [] ==> if arms[|arms| - 1].pat.Wildcard? then base + ArmsLen(arms) == end
                            else Follows(c.ns, base + ArmsLen(arms), b, 1)
    ensures RangeChecks(c, base, base + ArmsLen(arms))
    decreases arms, 0
  {
    hide Has, RangeChecks, Follows, Enters, Targets, Scope, ArmCells, ArmNotes, ArmLen, WfStmts, CoversStmts,
         StmtsDepth;
    if arms == [] {
      NoRange(c, n, b, base);
    } else {
      var k := |arms| - 1;
      var p := base + ArmsLen(arms[..k]);
      var c1, c2 := ArmsCells(n, arms[..k], base, end, At(brk), At(cont)), ArmCells(n, arms[k], p, end, At(brk), At(cont));
      Split(c, base, c1, c2, ArmsNotes(b, arms[..k]), ArmNotes(b, arms[k]));
      ArmFirst(b, arms[k]);
      FirstFollows(c, p, c2, ArmNotes(b, arms[k]), b, 1);
      ArmsChecks(c, n, b, arms[..k], base, end, brk, cont, inLoop);
      ArmChecks(c, n, b, arms[k], p, end, brk, cont, inLoop);
      RangesJoin(c, base, p, p + ArmLen(arms[k]));
    }
  }

  lemma {:induction false} MatchChecks(c: Noted, n: Names, b: Bounds, s: Stmt, pc: nat, brk: nat, cont: nat,
                                       inLoop: bool)
    requires s.Match? && StmtReady(c, n, b, s, pc, brk, cont, inLoop)
    ensures RangeChecks(c, pc, pc + StmtLen(s))
    decreases s, 2
  {
    hide Has, RangeChecks, Follows, Enters, Targets, ExprCells, ExprNotes, ExprDepth, WfExpr, CoversExpr, Ins,
         ArmsCells, ArmsNotes, WfStmts, CoversArms, ArmsDepth, ArmsLen;
    var e, arms := s.scrutinee, s.arms;
    var p := pc + ExprLen(e);
    var q := p + ArmsLen(arms);
    var end := q + ArmsTailLen(arms);
    var ca, na := ArmsCells(n, arms, p, end, At(brk), At(cont)), ArmsNotes(b, arms);
    var ct, nt := if ArmsTailLen(arms) == 1 then Op(POP) else [], if ArmsTailLen(arms) == 1 then Ins(b, 1, 1) else [];
    Split(c, pc, ExprCells(n, e) + ca, ct, ExprNotes(b, e, 0) + na, nt);
    ArmsFirst(b, arms);
    ExprThen(c, n, b, e, pc, 0, ca, na);
    if ArmsTailLen(arms) == 1 {
      FirstFollows(c, q, ct, nt, b, 1);
    }
    ArmsChecks(c, n, b, arms, p, end, brk, cont, inLoop);
    RangesJoin(c, pc, p, q);
    if ArmsTailLen(arms) == 1 {
      CheckPop(c, q, POP, b, 0);
      RangesJoin(c, pc, q, end);
    }
  }

  lemma {:induction false} ArmsFirst(b: Bounds, arms: seq<Arm>)
    ensures arms != [] ==> ArmsNotes(b, arms) != [] && ArmsNotes(b, arms)[0] == Start(b, 1, None)
  {
    if arms != [] {
      var k := |arms| - 1;
      ArmsFirst(b, arms[..k]);
      ArmFirst(b, arms[k]);
      assert arms[..k] == [] ==> ArmsNotes(b, arms[..k]) == [];
    }
  }
}
