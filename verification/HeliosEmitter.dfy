/**
 * The emitter: a class that appends bytes to its code, interns names, and patches jumps, loops and
 * calls in place. Its specification is the code of HeliosCode, reached through the ghost cells.
 */
module HeliosEmitter {
  import opened Bits
  import opened HeliosAst
  import opened Wrappers
  import opened HeliosCode
  import opened HeliosLink
  import opened HeliosNames
  import opened HeliosHoles

  datatype LoopCtx = LoopCtx(breakPatches: seq<nat>, continuePatches: seq<nat>, loopTop: nat)

  /** Each open loop lists exactly the holes that wait for it. */
  ghost predicate LoopsMatch(loops: seq<LoopCtx>, cs: seq<Cell>) {
    forall j :: 0 <= j < |loops| ==> LoopMatches(loops[j], cs, j + 1)
  }

  ghost predicate LoopMatches(ctx: LoopCtx, cs: seq<Cell>, d: nat) {
    ctx.breakPatches == Holes(cs, BreakOf(d)) && ctx.continuePatches == Holes(cs, ContinueOf(d))
  }

  /** Cells wait only for open loops. */
  ghost predicate OpenTargets(cs: seq<Cell>, n: nat) {
    forall i :: 0 <= i < |cs| && cs[i].Addr? ==> OpenTarget(cs[i].t, n)
  }

  predicate OpenTarget(t: Target, n: nat) {
    match t
    case BreakOf(d) => 1 <= d <= n
    case ContinueOf(d) => 1 <= d <= n
    case _ => true
  }

  ghost function BreakTarget(n: nat): Target {
    if n > 0 then BreakOf(n) else At(0)
  }

  ghost function ContinueTarget(n: nat): Target {
    if n > 0 then ContinueOf(n) else At(0)
  }

  class Emitter {
    ghost const prog: Program
    const constMap: seq<(string, i32)>
    var code: seq<u8>
    var consts: seq<seq<u8>>
    var locals: seq<string>
    var fnAddrs: seq<(string, nat)>
    var fnPatches: seq<(nat, string)>
    var loops: seq<LoopCtx>
    ghost var cells: seq<Cell>

    ghost predicate Core()
      reads `code, `cells, `fnPatches
    {
      IsRaw(code, cells) && Grouped(cells) && fnPatches == FnHoles(cells)
    }

    ghost predicate Valid()
      reads `code, `cells, `fnPatches, `loops
    {
      Core() && LoopsMatch(loops, cells) && OpenTargets(cells, |loops|)
    }

    ghost function Tables(): Names
      reads `locals, `consts
    {
      Names(locals, consts, constMap)
    }

    constructor (p: Program)
      ensures Valid() && cells == [] && loops == [] && fnAddrs == [] && consts == [] && locals == []
      ensures prog == p && constMap == p.consts
    {
      prog, constMap := p, p.consts;
      code, consts, locals, fnAddrs, fnPatches, loops, cells := [], [], [], [], [], [], [];
    }

    /** Emitting bytes. */
    method Emit(bs: seq<u8>)
      requires Valid()
      modifies `code, `cells
      ensures Valid() && cells == old(cells) + Lits(bs)
    {
      code := code + bs;
      AppendBytes(cells, bs, loops);
      cells := cells + Lits(bs);
    }

    method EmitOp(b: u8)
      requires Valid()
      modifies `code, `cells
      ensures Valid() && cells == old(cells) + Op(b)
    {
      Emit([b]);
      assert Lits([b]) == Op(b);
    }

    method EmitImm(b: u8, n: int)
      requires Valid()
      modifies `code, `cells
      ensures Valid() && cells == old(cells) + OpImm(b, n)
    {
      EmitOp(b);
      Emit(Le32(n));
      assert old(cells) + OpImm(b, n) == old(cells) + Op(b) + Lits(Le32(n));
    }

    /** Emitting a known address. */
    method EmitAddr(b: u8, v: nat)
      requires Valid()
      modifies `code, `cells
      ensures Valid() && cells == old(cells) + OpRef(b, At(v))
    {
      hide Le32, LoopMatches, Grouped, RawByte;
      EmitOp(b);
      AppendRaw(code, cells, At(v), v);
      AppendRef(cells, At(v), loops);
      code := code + Le32(v);
      cells := cells + Ref(At(v));
      assert cells == old(cells) + OpRef(b, At(v));
    }

    /** Emitting an opcode and four zero bytes, whose offset is returned for patching. */
    method EmitPending(b: u8) returns (off: nat)
      requires Valid()
      modifies `code, `cells
      ensures Valid() && cells == old(cells) + Op(b) + Ref(Pending) && off == |old(cells)| + 1
    {
      hide Le32, LoopMatches, Grouped, RawByte;
      EmitOp(b);
      off := |code|;
      AppendRaw(code, cells, Pending, 0);
      AppendRef(cells, Pending, loops);
      code := code + Le32(0);
      cells := cells + Ref(Pending);
    }

    method EmitCall(f: string)
      requires Valid()
      modifies `code, `cells, `fnPatches
      ensures Valid() && cells == old(cells) + OpRef(CALL, FnEntry(f))
    {
      hide Le32, LoopMatches, Grouped, RawByte;
      EmitOp(CALL);
      var off := |code|;
      AppendRaw(code, cells, FnEntry(f), 0);
      AppendRef(cells, FnEntry(f), loops);
      code := code + Le32(0);
      fnPatches := fnPatches + [(off, f)];
      cells := cells + Ref(FnEntry(f));
      assert cells == old(cells) + OpRef(CALL, FnEntry(f));
    }

    /** `break` and `continue`: a jump the innermost loop patches. Outside loops nothing patches it. */
    method EmitLoopJump(isBreak: bool)
      requires Valid()
      modifies `code, `cells, `loops
      ensures Valid() && |loops| == |old(loops)|
      ensures cells == old(cells) + OpRef(JMP, if isBreak then BreakTarget(|loops|) else ContinueTarget(|loops|))
    {
      hide Le32, LoopMatches, Grouped, RawByte, FnHoles, Holes;
      EmitOp(JMP);
      var off := |code|;
      ghost var t := if isBreak then BreakTarget(|loops|) else ContinueTarget(|loops|);
      AppendRaw(code, cells, t, 0);
      AppendRef(cells, t, loops);
      code := code + Le32(0);
      if |loops| > 0 {
        AppendJump(cells, isBreak, loops);
        var k := |loops| - 1;
        var ctx := loops[k];
        loops := loops[k := if isBreak then ctx.(breakPatches := ctx.breakPatches + [off])
                            else ctx.(continuePatches := ctx.continuePatches + [off])];
      }
      cells := cells + Ref(t);
      assert cells == old(cells) + OpRef(JMP, t);
    }

    /** Overwriting four bytes with an address. */
    method PatchRef(off: nat, v: nat, ghost t: Target)
      requires Core() && IsRef(cells, off, t) && !t.FnEntry?
      modifies `code, `cells
      ensures Core() && cells == Patched(old(cells), off, v)
    {
      hide Le32, Grouped, IsRaw, FnHoles, Patched;
      RefCell(cells, off, t, off + 3);
      PatchRaw(code, cells, off, v);
      PatchedKeeps(cells, off, t, v);
      PatchFnHoles(cells, off, t, v);
      RawLength(code, cells);
      code := code[..off] + Le32(v) + code[off + 4..];
      cells := Patched(cells, off, v);
    }

    /** Patching an address that was emitted as pending in this statement. */
    method Patch(off: nat, v: nat)
      requires Valid() && IsRef(cells, off, Pending)
      modifies `code, `cells
      ensures Valid() && cells == Patched(old(cells), off, v)
    {
      PatchLoops(cells, off, v, loops);
      PatchRef(off, v, Pending);
    }

    method LoopPush(top: nat)
      requires Valid()
      modifies `loops
      ensures Valid() && |loops| == |old(loops)| + 1
    {
      PushLoops(cells, loops, LoopCtx([], [], top));
      loops := loops + [LoopCtx([], [], top)];
    }

    /** Closing the innermost loop: every jump that waited for it gets its address. */
    method LoopPop(after: nat, next: nat)
      requires Valid() && |loops| > 0
      modifies `code, `cells, `loops
      ensures Valid() && |loops| == |old(loops)| - 1
      ensures cells == Fill(old(cells), |old(loops)|, after, next)
    {
      var d := |loops|;
      var ctx := loops[d - 1];
      ghost var cs := cells;
      assert LoopMatches(ctx, cs, d);
      loops := loops[..d - 1];
      PatchAll(ctx.breakPatches, after, BreakOf(d));
      ghost var cs1 := cells;
      RetargetHoles(cs, BreakOf(d), after, ContinueOf(d));
      PatchAll(ctx.continuePatches, next, ContinueOf(d));
      RetargetTwice(cs, d, after, next);
      PopLoops(cs, old(loops), after, next);
    }

    /** Patching every hole of one target. */
    method PatchAll(offs: seq<nat>, v: nat, ghost t: Target)
      requires Core() && offs == Holes(cells, t) && (t.BreakOf? || t.ContinueOf?)
      modifies `code, `cells
      ensures Core() && cells == Retarget(old(cells), t, At(v))
    {
      ghost var cs := cells;
      for i := 0 to |offs|
        invariant Core() && cells == RetargetSome(cs, t, v, offs[..i])
      {
        RetargetNext(cs, t, v, offs, i);
        PatchRef(offs[i], v, t);
      }
      RetargetAll(cs, t, v, offs);
    }

    /** The slot of a name: its first mention decides. */
    method Local(x: string) returns (i: nat)
      modifies `locals
      ensures Tables() == AddLocal(old(Tables()), x)
      ensures i == IndexOf(locals, x) < |locals|
    {
      i := IndexOf(locals, x);
      if i == |locals| {
        locals := locals + [x];
        IndexOfLast(old(locals), x);
      }
    }

    /** The index of a string, with its terminating NUL. */
    method AddConst(text: seq<u8>) returns (i: nat)
      modifies `consts
      ensures Tables() == AddString(old(Tables()), text)
      ensures i == IndexOf(consts, text + [0])
    {
      var b := text + [0];
      i := IndexOf(consts, b);
      if i == |consts| {
        consts := consts + [b];
        IndexOfLast(old(consts), b);
      }
    }

    method EmitExpr(e: Expr)
      requires Valid() && WfExpr(prog, e)
      modifies `code, `cells, `consts, `locals, `fnPatches
      ensures Valid() && Tables() == ExprNames(old(Tables()), e)
      ensures cells == old(cells) + ExprCells(Tables(), e)
      decreases e, 0
    {
      hide Valid, Intrinsic, FindFn, ExprLen, ArgsLen, Lits, OpImm, OpRef, IndexOf, Le16, ArgsCells, BinByte, UnByte;
      match e
      case IntLit(n) => EmitImm(PUSH, n);
      case BoolLit(b) => EmitImm(PUSH, OfBool(b));
      case StrLit(text) =>
        var i := AddConst(text);
        EmitOp(PUSHSTR);
        Emit(Le16(i));
        assert old(cells) + Op(PUSHSTR) + Lits(Le16(i)) == old(cells) + ([Byte(PUSHSTR)] + Lits(Le16(i)));
      case Var(x) =>
        var c := FindConst(constMap, x);
        if c.Some? {
          EmitImm(PUSH, c.value);
        } else {
          var i := Local(x);
          EmitImm(LOADLOCAL, i);
        }
      case Un(op, a) =>
        EmitExpr(a);
        EmitOp(UnByte(op));
        assert old(cells) + ExprCells(Tables(), a) + Op(UnByte(op)) == old(cells) + (ExprCells(Tables(), a) + Op(UnByte(op)));
      case Bin(a, op, b) =>
        EmitExpr(a);
        ghost var n1 := Tables();
        EmitExpr(b);
        ExprStays(old(Tables()), n1, Tables(), a, b);
        EmitOp(BinByte(op));
        Assoc3(old(cells), ExprCells(Tables(), a), ExprCells(Tables(), b), Op(BinByte(op)));
      case Cast(a, t) =>
        EmitExpr(a);
        EmitOp(CastByte(t));
        assert old(cells) + ExprCells(Tables(), a) + Op(CastByte(t)) == old(cells) + (ExprCells(Tables(), a) + Op(CastByte(t)));
      case Call(f, args) =>
        EmitArgs(args);
        EmitImm(PUSH, |args|);
        EmitCall(f);
        Assoc3(old(cells), ArgsCells(Tables(), args), OpImm(PUSH, |args|), OpRef(CALL, FnEntry(f)));
    }

    method EmitArgs(args: seq<Expr>)
      requires Valid() && forall i :: 0 <= i < |args| ==> WfExpr(prog, args[i])
      modifies `code, `cells, `consts, `locals, `fnPatches
      ensures Valid() && Tables() == ArgsNames(old(Tables()), args)
      ensures cells == old(cells) + ArgsCells(Tables(), args)
      decreases args
    {
      hide Valid, WfExpr, ExprNames, ExprCells, ExprLen;
      for i := 0 to |args|
        invariant Valid() && Tables() == ArgsNames(old(Tables()), args[..i])
        invariant cells == old(cells) + ArgsCells(Tables(), args[..i])
      {
        ghost var n1 := Tables();
        ghost var cs := ArgsCells(n1, args[..i]);
        EmitExpr(args[i]);
        ArgsStay(old(Tables()), n1, Tables(), args, i);
        assert old(cells) + cs + ExprCells(Tables(), args[i]) == old(cells) + (cs + ExprCells(Tables(), args[i]));
      }
      assert args[..|args|] == args;
    }

    ghost predicate Emitted(n0: Names, cs0: seq<Cell>, s: Stmt)
      reads `locals, `consts, `cells, `loops
    {
      && Tables() == StmtNames(n0, s)
      && cells == cs0 + StmtCells(Tables(), s, |cs0|, BreakTarget(|loops|), ContinueTarget(|loops|))
    }

    method EmitStmt(s: Stmt)
      requires Valid() && WfStmt(prog, s, |loops| > 0)
      modifies `code, `cells, `consts, `locals, `fnPatches, `loops
      ensures Valid() && |loops| == |old(loops)| && Emitted(old(Tables()), old(cells), s)
      decreases s, 2
    {
      hide Valid, WfExpr, ExprNames, ExprCells, StmtLen, ExprLen, Lits, OpImm, IndexOf;
      match s
      case Let(x, e) => var _ := EmitLet(x, e);
      case Assign(x, e) => var _ := EmitLet(x, e);
      case CompoundAssign(x, op, e) =>
        var i := Local(x);
        EmitImm(LOADLOCAL, i);
        ghost var n1 := Tables();
        EmitExpr(e);
        LocalStays(n1, Tables(), x, e);
        EmitOp(BinByte(CompoundOp(op)));
        EmitImm(STORELOCAL, i);
        Assoc4(old(cells), OpImm(LOADLOCAL, i), ExprCells(Tables(), e), Op(BinByte(CompoundOp(op))), OpImm(STORELOCAL, i));
      case If(_, _, _) => EmitIf(s);
      case While(_, _) => EmitWhile(s);
      case Loop(_) => EmitLoop(s);
      case For(_, _, _, _, _, _) => EmitFor(s);
      case Match(_, _) => EmitMatch(s);
      case Break => EmitLoopJump(true);
      case Continue => EmitLoopJump(false);
      case Return(e) =>
        EmitExpr(e);
        EmitOp(RET);
        Assoc2(old(cells), ExprCells(Tables(), e), Op(RET));
      case Print(e) =>
        EmitExpr(e);
        var op := if e.StrLit? then PRINT else PRINTNUM;
        EmitOp(op);
        Assoc2(old(cells), ExprCells(Tables(), e), Op(op));
      case ExprStmt(e) =>
        EmitExpr(e);
        EmitOp(POP);
        Assoc2(old(cells), ExprCells(Tables(), e), Op(POP));
    }

    method EmitLet(x: string, e: Expr) returns (i: nat)
      requires Valid() && WfExpr(prog, e)
      modifies `code, `cells, `consts, `locals, `fnPatches
      ensures Valid() && Tables() == AddLocal(ExprNames(old(Tables()), e), x)
      ensures i == IndexOf(locals, x)
      ensures cells == old(cells) + (ExprCells(Tables(), e) + OpImm(STORELOCAL, i))
    {
      hide Valid, WfExpr, ExprNames, ExprCells, ExprLen, Lits, OpImm;
      EmitExpr(e);
      ghost var n1 := Tables();
      i := Local(x);
      ExprCovered(old(Tables()), e);
      ExprStable(n1, Tables(), e);
      EmitImm(STORELOCAL, i);
      Assoc2(old(cells), ExprCells(Tables(), e), OpImm(STORELOCAL, i));
    }

    method EmitStmts(ss: seq<Stmt>)
      requires Valid() && WfStmts(prog, ss, |loops| > 0)
      modifies `code, `cells, `consts, `locals, `fnPatches, `loops
      ensures Valid() && |loops| == |old(loops)| && Tables() == StmtsNames(old(Tables()), ss)
      ensures cells == old(cells) + StmtsCells(Tables(), ss, |old(cells)|, BreakTarget(|loops|), ContinueTarget(|loops|))
      decreases ss, 3
    {
      hide Valid, WfStmt, StmtNames, StmtCells, StmtLen;
      for i := 0 to |ss|
        invariant Valid() && |loops| == |old(loops)| && Tables() == StmtsNames(old(Tables()), ss[..i])
        invariant cells == old(cells)
                  + StmtsCells(Tables(), ss[..i], |old(cells)|, BreakTarget(|loops|), ContinueTarget(|loops|))
      {
        ghost var n1 := Tables();
        ghost var brk, cont := BreakTarget(|loops|), ContinueTarget(|loops|);
        ghost var cs := StmtsCells(n1, ss[..i], |old(cells)|, brk, cont);
        EmitStmt(ss[i]);
        StmtsStay(old(Tables()), n1, Tables(), ss, i, |old(cells)|, brk, cont);
        Assoc2(old(cells), cs, StmtCells(Tables(), ss[i], |old(cells)| + StmtsLen(ss[..i]), brk, cont));
      }
      assert ss[..|ss|] == ss;
    }

    method EmitIf(s: Stmt)
      requires s.If? && Valid() && WfStmt(prog, s, |loops| > 0)
      modifies `code, `cells, `consts, `locals, `fnPatches, `loops
      ensures Valid() && |loops| == |old(loops)| && Emitted(old(Tables()), old(cells), s)
      decreases s, 1
    {
      hide Valid, WfExpr, WfStmts, ExprNames, ExprCells, StmtsNames, StmtsCells, StmtLen, ExprLen, Lits, StmtsLen,
           Ref, OpRef, IsRef, Patched, BreakTarget, ContinueTarget, StmtCells, StmtNames, WfStmt;
      IfParts(prog, s, |loops| > 0, Tables());
      ghost var n0, cs0 := Tables(), cells;
      ghost var brk, cont := BreakTarget(|loops|), ContinueTarget(|loops|);
      var jz := EmitTest(s.cond);
      ghost var n1, c1 := Tables(), ExprCells(Tables(), s.cond);
      ghost var tbase := |cells|;
      EmitStmts(s.thn);
      ghost var n2, t1 := Tables(), StmtsCells(Tables(), s.thn, tbase, brk, cont);
      var jmp, ea := EmitElse(jz, cs0 + c1 + Op(JZ), t1);
      EmitStmts(s.els);
      ghost var e1 := StmtsCells(Tables(), s.els, ea, brk, cont);
      var end := CodeLength();
      PatchedMiddle(cs0 + c1 + Op(JZ) + Ref(At(ea)) + t1 + Op(JMP), e1, end);
      Patch(jmp, end);
      IfRegrouped(cs0, c1, t1, e1, ea, end);
      IfAssembled(n0, n1, n2, Tables(), s, |cs0|, c1, t1, e1, brk, cont);
    }

    /** A condition and the jump taken when it is 0. */
    method EmitTest(c: Expr) returns (jz: nat)
      requires Valid() && WfExpr(prog, c)
      modifies `code, `cells, `consts, `locals, `fnPatches
      ensures Valid() && Tables() == ExprNames(old(Tables()), c)
      ensures cells == old(cells) + ExprCells(Tables(), c) + Op(JZ) + Ref(Pending)
      ensures jz == |old(cells)| + ExprLen(c) + 1
    {
      hide Valid, WfExpr, ExprNames, ExprCells, ExprLen, Ref;
      EmitExpr(c);
      jz := EmitPending(JZ);
    }

    /** The jump over the else branch, whose start the test jumps to. */
    method EmitElse(jz: nat, ghost pre: seq<Cell>, ghost t: seq<Cell>) returns (jmp: nat, ea: nat)
      requires Valid() && cells == pre + Ref(Pending) + t && jz == |pre|
      modifies `code, `cells
      ensures Valid() && cells == pre + Ref(At(ea)) + t + Op(JMP) + Ref(Pending)
      ensures jmp == |old(cells)| + 1 && ea == |cells|
    {
      hide Valid, Ref, IsRef, Patched;
      jmp := EmitPending(JMP);
      ea := CodeLength();
      RegroupPending(pre, t, Op(JMP), ea);
      Patch(jz, ea);
    }

    method EmitWhile(s: Stmt)
      requires s.While? && Valid() && WfStmt(prog, s, |loops| > 0)
      modifies `code, `cells, `consts, `locals, `fnPatches, `loops
      ensures Valid() && |loops| == |old(loops)| && Emitted(old(Tables()), old(cells), s)
      decreases s, 1
    {
      hide Valid, WfExpr, WfStmts, ExprNames, ExprCells, StmtsNames, StmtsCells, StmtLen, ExprLen, Lits, StmtsLen,
           Ref, OpRef, IsRef, Patched, Fill, BreakTarget, ContinueTarget, StmtCells, StmtNames, WfStmt;
      WhileParts(prog, s, |loops| > 0, Tables());
      NoOpenHoles();
      ghost var n0, cs0, d := Tables(), cells, |loops| + 1;
      var top := CodeLength();
      LoopPush(top);
      var exit := EmitTest(s.cond);
      ghost var n1, c1 := Tables(), ExprCells(Tables(), s.cond);
      var bbase := CodeLength();
      EmitStmts(s.body);
      ghost var b1 := StmtsCells(Tables(), s.body, bbase, BreakTarget(d), ContinueTarget(d));
      var next := CodeLength();
      EmitAddr(JMP, top);
      var after := CodeLength();
      PendingThenBody(cs0 + c1 + Op(JZ), b1, OpRef(JMP, At(top)), after);
      Patch(exit, after);
      LoopPop(after, next);
      WhileFilled(n0, n1, Tables(), s, cs0, c1, b1, d, after, next);
    }

    lemma NoOpenHoles()
      requires Valid()
      ensures Unaffected(cells, |loops| + 1)
    {
    }

    method EmitLoop(s: Stmt)
      requires s.Loop? && Valid() && WfStmt(prog, s, |loops| > 0)
      modifies `code, `cells, `consts, `locals, `fnPatches, `loops
      ensures Valid() && |loops| == |old(loops)| && Emitted(old(Tables()), old(cells), s)
      decreases s, 1
    {
      hide Valid, WfStmts, StmtsNames, StmtsCells, StmtLen, Lits, StmtsLen, Ref, OpRef, Fill, BreakTarget,
           ContinueTarget;
      NoOpenHoles();
      ghost var cs0, d := cells, |loops| + 1;
      var top := CodeLength();
      LoopPush(top);
      EmitStmts(s.body);
      ghost var b1 := StmtsCells(Tables(), s.body, top, BreakTarget(d), ContinueTarget(d));
      var next := CodeLength();
      EmitAddr(JMP, top);
      var after := CodeLength();
      LoopPop(after, next);
      LoopFilled(Tables(), s, cs0, b1, d, after, next);
    }

    method EmitFor(s: Stmt)
      requires s.For? && Valid() && WfStmt(prog, s, |loops| > 0)
      modifies `code, `cells, `consts, `locals, `fnPatches, `loops
      ensures Valid() && |loops| == |old(loops)| && Emitted(old(Tables()), old(cells), s)
      decreases s, 1
    {
      hide Valid, WfExpr, WfStmts, ExprNames, ExprCells, StmtsNames, StmtsCells, StmtLen, ExprLen, Lits, StmtsLen,
           Ref, OpRef, OpImm, IsRef, Patched, Fill, ForHead, ForTail, ForLen, BreakTarget, ContinueTarget, StmtCells,
           StmtNames, WfStmt, IndexOf;
      ForParts(prog, s, |loops| > 0, Tables());
      ForLenIs(s);
      ghost var n0, cs0, d := Tables(), cells, |loops| + 1;
      var vi, top, exit;
      ghost var n2;
      vi, top, exit, n2 := EmitForOpen(s);
      ghost var n3 := Tables();
      ghost var c1, h1 := ExprCells(n2, s.start) + OpImm(STORELOCAL, vi), ForJumpless(n3, vi, s.end, s.kind);
      var bbase := CodeLength();
      EmitStmts(s.body);
      ghost var n4, b1 := Tables(), StmtsCells(Tables(), s.body, bbase, BreakTarget(d), ContinueTarget(d));
      var next := CodeLength();
      EmitForTail(vi, s.step, top);
      var after := CodeLength();
      PendingThenBody(cs0 + c1 + h1, b1, ForTail(Tables(), vi, s.step, top), after);
      Patch(exit, after);
      LoopPop(after, next);
      ForFilled(n0, n2, n3, n4, Tables(), s, cs0, vi, d, after, next);
    }

    /** Setting the loop variable, opening the loop, and its test. */
    method EmitForOpen(s: Stmt) returns (vi: nat, top: nat, exit: nat, ghost n: Names)
      requires s.For? && Valid() && WfExpr(prog, s.start) && WfExpr(prog, s.end)
      modifies `code, `cells, `consts, `locals, `fnPatches, `loops
      ensures Valid() && |loops| == |old(loops)| + 1
      ensures n == AddLocal(ExprNames(old(Tables()), s.start), s.name) && Tables() == ExprNames(n, s.end)
      ensures vi == IndexOf(n.locals, s.name) && top == |old(cells)| + ExprLen(s.start) + 5
      ensures var pre := old(cells) + (ExprCells(n, s.start) + OpImm(STORELOCAL, vi));
              var h := ForJumpless(Tables(), vi, s.end, s.kind);
              Unaffected(pre, |loops|) && cells == pre + h + Ref(Pending) && exit == |pre| + |h|
    {
      hide Valid, WfExpr, ExprNames, ExprCells, ExprLen, Lits, Ref, OpImm, ForJumpless, IndexOf, Unaffected;
      vi := EmitLet(s.name, s.start);
      n := Tables();
      top := CodeLength();
      NoOpenHoles();
      LoopPush(top);
      exit := EmitForHead(vi, s.end, s.kind);
    }

    method EmitForHead(vi: nat, end: Expr, kind: RangeKind) returns (exit: nat)
      requires Valid() && WfExpr(prog, end)
      modifies `code, `cells, `consts, `locals, `fnPatches
      ensures Valid() && Tables() == ExprNames(old(Tables()), end)
      ensures cells == old(cells) + ForJumpless(Tables(), vi, end, kind) + Ref(Pending)
      ensures exit == |old(cells)| + |ForJumpless(Tables(), vi, end, kind)|
    {
      hide Valid, WfExpr, ExprNames, ExprCells, ExprLen, Ref, OpImm;
      EmitImm(LOADLOCAL, vi);
      EmitExpr(end);
      var op := if kind.Exclusive? then CMPLT else CMPLE;
      EmitOp(op);
      exit := EmitPending(JZ);
      Assoc4(old(cells), OpImm(LOADLOCAL, vi), ExprCells(Tables(), end), Op(op), Op(JZ));
    }

    method EmitForTail(vi: nat, step: Option<Expr>, top: nat)
      requires Valid() && (step.Some? ==> WfExpr(prog, step.value))
      modifies `code, `cells, `consts, `locals, `fnPatches
      ensures Valid() && Tables() == if step.None? then old(Tables()) else ExprNames(old(Tables()), step.value)
      ensures cells == old(cells) + ForTail(Tables(), vi, step, top)
    {
      hide Valid, WfExpr, ExprNames, ExprCells, ExprLen, OpRef, OpImm;
      EmitImm(LOADLOCAL, vi);
      match step {
        case Some(e) => EmitExpr(e);
        case None => EmitImm(PUSH, 1);
      }
      ghost var inc := if step.None? then OpImm(PUSH, 1) else ExprCells(Tables(), step.value);
      EmitOp(ADD);
      EmitImm(STORELOCAL, vi);
      EmitAddr(JMP, top);
      Assoc4(old(cells), OpImm(LOADLOCAL, vi), inc, Op(ADD), OpImm(STORELOCAL, vi));
      Assoc2(old(cells), OpImm(LOADLOCAL, vi) + inc + Op(ADD) + OpImm(STORELOCAL, vi), OpRef(JMP, At(top)));
    }

    /** One arm. The jump past a miss and the jump to the end of the match are patched later. */
    method EmitArm(a: Arm, ghost f: seq<Cell>, ghost e: set<nat>, ghost end: nat)
      returns (miss: Option<nat>, out: Option<nat>)
      requires Valid() && WfStmts(prog, a.body, |loops| > 0) && Awaits(cells, f, e)
      modifies `code, `cells, `consts, `locals, `fnPatches, `loops
      ensures Valid() && |loops| == |old(loops)| && Tables() == StmtsNames(old(Tables()), a.body)
      ensures a.pat.LitPat? == miss.Some? == out.Some?
      ensures var f' := f + ArmCells(Tables(), a, |f|, end, BreakTarget(|loops|), ContinueTarget(|loops|));
              if a.pat.Wildcard? then Awaits(cells, f', e)
              else
                && |f| <= miss.value < out.value
                && Awaits(cells, f', e + {miss.value, out.value})
                && IsRef(f', miss.value, At(|f'|)) && IsRef(f', out.value, At(end))
      decreases a, 4
    {
      hide Valid, WfStmts, StmtsNames, StmtsCells, StmtsLen, Ref, IsRef, Grouped, Awaits, BreakTarget, ContinueTarget;
      ghost var brk, cont, cs0 := BreakTarget(|loops|), ContinueTarget(|loops|), cells;
      match a.pat {
        case Wildcard =>
          miss, out := None, None;
          EmitOp(POP);
          CellsAreGrouped();
          ghost var cs1 := cells;
          EmitStmts(a.body);
          AwaitsLength(cs0, f, e);
          ghost var b := StmtsCells(Tables(), a.body, |f| + 1, brk, cont);
          CellsAreGrouped();
          SuffixGrouped(cs1, b);
          WildcardArm(Tables(), a, cs0, f, e, b, end, brk, cont);
        case LitPat(v) =>
          EmitOp(DUP);
          EmitImm(PUSH, v);
          EmitOp(CMPEQ);
          var m := EmitPending(JZ);
          EmitOp(POP);
          CellsAreGrouped();
          ghost var cs1 := cells;
          EmitStmts(a.body);
          ghost var b := StmtsCells(Tables(), a.body, |f| + 13, brk, cont);
          AwaitsLength(cs0, f, e);
          CellsAreGrouped();
          SuffixGrouped(cs1, b);
          var o := EmitPending(JMP);
          miss, out := Some(m), Some(o);
          LiteralArm(Tables(), a, cs0, f, e, b, end, brk, cont);
      }
    }

    lemma CellsAreGrouped()
      requires Valid()
      ensures Grouped(cells)
    {
    }

    method EmitMatch(s: Stmt)
      requires s.Match? && Valid() && WfStmt(prog, s, |loops| > 0)
      modifies `code, `cells, `consts, `locals, `fnPatches, `loops
      ensures Valid() && |loops| == |old(loops)| && Emitted(old(Tables()), old(cells), s)
      decreases s, 1
    {
      hide Valid, WfExpr, WfStmts, ExprNames, ExprCells, StmtLen, ExprLen, StmtCells, StmtNames, WfStmt, ArmsNames,
           ArmsCells, ArmCells, ArmsLen, ArmsTailLen, Awaiting, Awaits, IsRef, MatchSoFar, BreakTarget,
           ContinueTarget, StmtsNames;
      MatchParts(prog, s, |loops| > 0, Tables());
      ghost var n0, cs0, brk, cont := Tables(), cells, BreakTarget(|loops|), ContinueTarget(|loops|);
      EmitExpr(s.scrutinee);
      ghost var n1, abase := Tables(), |cells|;
      ghost var final := abase + ArmsLen(s.arms) + ArmsTailLen(s.arms);
      var ends: seq<nat>, next: Option<nat> := [], None;
      CellsAreGrouped();
      NoArms(Tables(), s, cs0, abase, final, brk, cont);
      for i := 0 to |s.arms|
        invariant Valid() && |loops| == |old(loops)| && Tables() == ArmsNames(n1, s.arms[..i])
        invariant Awaiting(cells, MatchSoFar(Tables(), s, i, cs0, abase, final, brk, cont), ends, next, final)
        invariant next.Some? <==> i > 0 && s.arms[i - 1].pat.LitPat?
      {
        ghost var f, n2 := MatchSoFar(Tables(), s, i, cs0, abase, final, brk, cont), Tables();
        ArmsBefore(n2, s, i, cs0, abase, final, brk, cont);
        ResolveNext(next, ends, f, final);
        AwaitingNone(cells, f, ends, final);
        var miss, out := EmitArm(s.arms[i], f, Elements(ends), final);
        next := miss;
        MatchGrows(n0, n1, n2, Tables(), s, i, cs0, abase, final, brk, cont);
        ArmAdded(cells, f, ArmCells(Tables(), s.arms[i], |f|, final, brk, cont), ends, miss, out, final);
        ends := if out.Some? then ends + [out.value] else ends;
      }
      ghost var f := MatchSoFar(Tables(), s, |s.arms|, cs0, abase, final, brk, cont);
      ArmsComplete(Tables(), s, cs0, abase, final, brk, cont);
      CloseMatch(next, ends, f, final);
      assert s.arms[..|s.arms|] == s.arms;
      MatchAssembled(Tables(), s, cs0, brk, cont);
    }

    /** The jump of the previous arm's missed test lands here. */
    method ResolveNext(next: Option<nat>, ends: seq<nat>, ghost f: seq<Cell>, ghost final: nat)
      requires Valid() && Awaiting(cells, f, ends, next, final)
      modifies `code, `cells
      ensures Valid() && Awaiting(cells, f, ends, None, final) && |cells| == |f|
    {
      hide Awaiting, Valid, IsRef, Patched;
      var here := CodeLength();
      if next.Some? {
        MatchPatch(cells, f, ends, next, final);
        Patch(next.value, here);
      }
      AwaitingLength(cells, f, ends, final);
    }

    /** The Pop of an unmatched scrutinee, and the addresses of the jumps to the end. */
    method CloseMatch(next: Option<nat>, ends: seq<nat>, ghost f: seq<Cell>, ghost final: nat)
      requires Valid() && Awaiting(cells, f, ends, next, final)
      requires final == |f| + if next.Some? then 1 else 0
      modifies `code, `cells
      ensures Valid() && cells == f + if next.Some? then Op(POP) else []
    {
      hide Valid, Awaiting, Unpatched;
      ghost var g := f + if next.Some? then Op(POP) else [];
      ResolveNext(next, ends, f, final);
      if next.Some? {
        AwaitingPop(cells, f, ends, final);
        EmitOp(POP);
      } else {
        assert f + [] == f;
      }
      var end := CodeLength();
      AwaitingLength(cells, g, ends, final);
      for i := 0 to |ends|
        invariant Valid() && Awaiting(cells, g, ends[i..], None, final)
      {
        EndPatch(cells, g, ends[i..], final);
        Patch(ends[i], end);
        assert ends[i..][1..] == ends[i + 1..];
      }
      AllPatched(cells, g, ends[|ends|..], final);
    }

    method EmitFn(f: FnDef)
      requires Valid() && loops == [] && WfFn(prog, f)
      modifies `code, `cells, `consts, `locals, `fnPatches, `loops, `fnAddrs
      ensures Valid() && loops == [] && Tables() == FnNames(old(consts), constMap, f)
      ensures fnAddrs == old(fnAddrs) + [(f.name, |old(cells)|)]
      ensures cells == old(cells) + FnCells(Tables(), f, |old(cells)|)
    {
      hide Valid, WfStmts, StmtsNames, StmtsCells, StmtsLen, OpImm;
      locals := [];
      ghost var n0 := Tables();
      for i := 0 to |f.params|
        invariant Valid() && loops == [] && fnAddrs == old(fnAddrs) && cells == old(cells)
        invariant Tables() == AddLocals(n0, f.params[..i])
      {
        assert f.params[..i + 1][..i] == f.params[..i];
        var _ := Local(f.params[i]);
      }
      assert f.params[..|f.params|] == f.params;
      var addr := CodeLength();
      fnAddrs := fnAddrs + [(f.name, addr)];
      EmitStmts(f.body);
      EmitImm(PUSH, 0);
      EmitOp(RET);
      Assoc3(old(cells), StmtsCells(Tables(), f.body, |old(cells)|, At(0), At(0)), OpImm(PUSH, 0), Op(RET));
    }

    /** Filling in the entry address at every call. */
    method PatchCalls()
      requires Core()
      modifies `code
      ensures code == CellBytes(cells, fnAddrs)
    {
      var patches := fnPatches;
      hide CallBytes, Core, Le32;
      CallsStart();
      for i := 0 to |patches|
        invariant code == CallBytes(cells, fnAddrs, patches[..i])
      {
        var (off, f) := patches[i];
        CallPatched(cells, fnAddrs, patches, i);
        code := code[..off] + Le32(EntryAddr(fnAddrs, f)) + code[off + 4..];
      }
      CallsDone(cells, fnAddrs, patches);
    }

    lemma CallsStart()
      requires Core()
      ensures code == CallBytes(cells, fnAddrs, []) && Grouped(cells) && fnPatches == FnHoles(cells)
    {
    }

    /** The whole program: the image is the specified one. */
    method EmitProgram(fns: seq<FnDef>) returns (image: Image)
      requires Valid() && cells == [] && loops == [] && fnAddrs == [] && consts == []
      requires fns == prog.fns && WfProgram(prog) && constMap == prog.consts
      modifies this
      ensures image == ProgramImage(prog)
    {
      hide Valid, FnNames, FnCells, FnLen, PoolOf, Entries, FnsCells, FnsLen, WfFn, Core, CellBytes;
      FnsNone(constMap);
      for i := 0 to |fns|
        invariant Valid() && loops == []
        invariant consts == PoolOf(fns[..i], constMap) && fnAddrs == Entries(fns[..i])
        invariant cells == FnsCells(fns[..i], constMap, consts)
      {
        ghost var pool := consts;
        EmitFn(fns[i]);
        FnsGrow(fns, i, constMap, pool, Tables());
      }
      assert fns[..|fns|] == fns;
      ValidCore();
      PatchCalls();
      var entry := FindEntry(fnAddrs, "main");
      image := Image(code, consts, if entry.None? then 0 else entry.value);
    }

    lemma ValidCore()
      requires Valid()
      ensures Core()
    {
    }

    method CodeLength() returns (n: nat)
      requires Valid()
      ensures n == |code| == |cells|
    {
      n := |code|;
    }
  }

  lemma Assoc2<T>(o: seq<T>, a: seq<T>, b: seq<T>)
    ensures o + a + b == o + (a + b)
  {
  }

  lemma Assoc4<T>(o: seq<T>, a: seq<T>, b: seq<T>, c: seq<T>, d: seq<T>)
    ensures o + a + b + c + d == o + (a + b + c + d)
  {
  }

  lemma LocalStays(n1: Names, n2: Names, x: string, e: Expr)
    requires x in n1.locals && n2 == ExprNames(n1, e)
    ensures IndexOf(n1.locals, x) == IndexOf(n2.locals, x)
  {
    ExprGrows(n1, e);
    IndexStable(n1.locals, n2.locals, x);
  }

  lemma StmtsStay(n0: Names, n1: Names, n2: Names, ss: seq<Stmt>, i: nat, base: nat, brk: Target, cont: Target)
    requires i < |ss| && n1 == StmtsNames(n0, ss[..i]) && n2 == StmtNames(n1, ss[i])
    ensures n2 == StmtsNames(n0, ss[..i + 1])
    ensures StmtsCells(n1, ss[..i], base, brk, cont) + StmtCells(n2, ss[i], base + StmtsLen(ss[..i]), brk, cont)
            == StmtsCells(n2, ss[..i + 1], base, brk, cont)
  {
    hide StmtCells;
    assert ss[..i + 1][..i] == ss[..i];
    StmtsCovered(n0, ss[..i]);
    StmtGrows(n1, ss[i]);
    StmtsStable(n1, n2, ss[..i], base, brk, cont);
  }

  /** A pending jump inside emitted code is filled by its patch. */
  lemma RegroupPending(a: seq<Cell>, t: seq<Cell>, op: seq<Cell>, v: nat)
    ensures var cs := a + Ref(Pending) + t + op + Ref(Pending);
            && IsRef(cs, |a|, Pending)
            && Patched(cs, |a|, v) == a + Ref(At(v)) + t + op + Ref(Pending)
  {
    hide IsRef, Patched, Ref;
    var b := t + op + Ref(Pending);
    assert a + Ref(Pending) + t + op + Ref(Pending) == a + Ref(Pending) + b;
    assert a + Ref(At(v)) + t + op + Ref(Pending) == a + Ref(At(v)) + b;
    PatchedMiddle(a, b, v);
  }

  lemma IfAssembled(n0: Names, n1: Names, n2: Names, n3: Names, s: Stmt, base: nat, c: seq<Cell>, t: seq<Cell>,
                    e: seq<Cell>, brk: Target, cont: Target)
    requires s.If? && n1 == ExprNames(n0, s.cond) && n2 == StmtsNames(n1, s.thn) && n3 == StmtsNames(n2, s.els)
    requires c == ExprCells(n1, s.cond)
    requires var tbase := base + ExprLen(s.cond) + 5;
             && t == StmtsCells(n2, s.thn, tbase, brk, cont)
             && e == StmtsCells(n3, s.els, tbase + StmtsLen(s.thn) + 5, brk, cont)
    ensures var ea := base + ExprLen(s.cond) + 5 + StmtsLen(s.thn) + 5;
            StmtCells(n3, s, base, brk, cont) == c + OpRef(JZ, At(ea)) + t + OpRef(JMP, At(ea + StmtsLen(s.els))) + e
  {
    hide ExprCells, StmtsCells, StmtCells, ExprNames, StmtsNames, ExprLen, StmtsLen, StmtLen, Ref, Op, OpRef;
    IfStays(n0, n1, n2, n3, s, base, brk, cont);
    IfCode(n3, s, base, brk, cont);
  }

  /** Cells that do not wait for loop d. */
  ghost predicate Unaffected(cs: seq<Cell>, d: nat) {
    forall i :: 0 <= i < |cs| && cs[i].Addr? ==> cs[i].t != BreakOf(d) && cs[i].t != ContinueOf(d)
  }

  /** The head of a `for` round up to the address of its exit jump. */
  ghost function ForJumpless(n: Names, i: nat, end: Expr, kind: RangeKind): (r: seq<Cell>)
    ensures |r| == ExprLen(end) + 7
  {
    OpImm(LOADLOCAL, i) + ExprCells(n, end) + Op(if kind.Exclusive? then CMPLT else CMPLE) + Op(JZ)
  }

  lemma PendingThenBody(a: seq<Cell>, b: seq<Cell>, c: seq<Cell>, v: nat)
    ensures var cs := a + Ref(Pending) + b + c;
            && IsRef(cs, |a|, Pending)
            && Patched(cs, |a|, v) == a + Ref(At(v)) + b + c
  {
    hide IsRef, Patched, Ref;
    assert a + Ref(Pending) + b + c == a + Ref(Pending) + (b + c);
    assert a + Ref(At(v)) + b + c == a + Ref(At(v)) + (b + c);
    PatchedMiddle(a, b + c, v);
  }

  /** Closing a loop changes only its body. */
  lemma FillMiddle(pre: seq<Cell>, b: seq<Cell>, post: seq<Cell>, d: nat, after: nat, next: nat)
    requires Unaffected(pre, d) && Unaffected(post, d)
    ensures Fill(pre + b + post, d, after, next) == pre + Fill(b, d, after, next) + post
  {
    var l, r := Fill(pre + b + post, d, after, next), pre + Fill(b, d, after, next) + post;
    forall i | 0 <= i < |l|
      ensures l[i] == r[i]
    {
      assert (pre + b + post)[i] == if i < |pre| then pre[i] else if i < |pre| + |b| then b[i - |pre|]
                                    else post[i - |pre| - |b|];
    }
  }

  lemma KnownUnaffected(cs: seq<Cell>, d: nat)
    requires Known(cs)
    ensures Unaffected(cs, d)
  {
  }

  lemma UnaffectedConcat(a: seq<Cell>, b: seq<Cell>, d: nat)
    requires Unaffected(a, d) && Unaffected(b, d)
    ensures Unaffected(a + b, d)
  {
  }

  lemma WhileParts(p: Program, s: Stmt, inLoop: bool, n: Names)
    requires s.While? && WfStmt(p, s, inLoop)
    ensures WfExpr(p, s.cond) && WfStmts(p, s.body, true)
    ensures StmtNames(n, s) == StmtsNames(ExprNames(n, s.cond), s.body)
  {
    hide WfExpr, WfStmts, StmtsNames, ExprNames;
  }

  lemma WhileCode(n: Names, s: Stmt, base: nat, brk: Target, cont: Target)
    requires s.While?
    ensures var bbase := base + ExprLen(s.cond) + 5;
            var next := bbase + StmtsLen(s.body);
            StmtCells(n, s, base, brk, cont)
            == ExprCells(n, s.cond) + OpRef(JZ, At(next + 5)) + StmtsCells(n, s.body, bbase, At(next + 5), At(next))
               + OpRef(JMP, At(base))
  {
    hide ExprCells, StmtsCells, ExprLen, StmtsLen, OpRef;
  }

  lemma WhileFilled(n0: Names, n1: Names, n2: Names, s: Stmt, o: seq<Cell>, c: seq<Cell>, b: seq<Cell>,
                    d: nat, after: nat, next: nat)
    requires s.While? && n1 == ExprNames(n0, s.cond) && n2 == StmtsNames(n1, s.body) && Unaffected(o, d) && d > 0
    requires c == ExprCells(n1, s.cond)
    requires b == StmtsCells(n2, s.body, |o| + ExprLen(s.cond) + 5, BreakTarget(d), ContinueTarget(d))
    requires next == |o| + ExprLen(s.cond) + 5 + StmtsLen(s.body) && after == next + 5
    ensures forall brk, cont :: Fill(o + c + Op(JZ) + Ref(At(after)) + b + OpRef(JMP, At(|o|)), d, after, next)
                                == o + StmtCells(n2, s, |o|, brk, cont)
  {
    hide ExprCells, StmtsCells, StmtCells, ExprNames, StmtsNames, ExprLen, StmtsLen, StmtLen, Ref, Op, OpRef, Fill,
         Unaffected, Known;
    ExprCovered(n0, s.cond);
    StmtsGrow(n1, s.body);
    ExprStable(n1, n2, s.cond);
    ExprKnown(n1, s.cond);
    Plain(JZ, 0, after);
    Plain(JMP, 0, |o|);
    var pre, post := o + c + OpRef(JZ, At(after)), OpRef(JMP, At(|o|));
    OpRefIs(o + c, JZ, At(after));
    KnownUnaffected(c, d);
    KnownUnaffected(OpRef(JZ, At(after)), d);
    KnownUnaffected(post, d);
    UnaffectedConcat(o, c, d);
    UnaffectedConcat(o + c, OpRef(JZ, At(after)), d);
    FillMiddle(pre, b, post, d, after, next);
    var bbase := |o| + ExprLen(s.cond) + 5;
    FillBody(n2, s.body, bbase, d, after, next);
    var b' := StmtsCells(n2, s.body, bbase, At(after), At(next));
    Assoc4(o, c, OpRef(JZ, At(after)), b', post);
    forall brk, cont
      ensures o + c + OpRef(JZ, At(after)) + b' + post == o + StmtCells(n2, s, |o|, brk, cont)
    {
      WhileCode(n2, s, |o|, brk, cont);
    }
  }

  lemma OpRefIs(o: seq<Cell>, b: u8, t: Target)
    ensures o + Op(b) + Ref(t) == o + OpRef(b, t)
  {
  }

  lemma LoopFilled(n: Names, s: Stmt, o: seq<Cell>, b: seq<Cell>, d: nat, after: nat, next: nat)
    requires s.Loop? && Unaffected(o, d) && d > 0
    requires b == StmtsCells(n, s.body, |o|, BreakTarget(d), ContinueTarget(d))
    requires next == |o| + StmtsLen(s.body) && after == next + 5
    ensures forall brk, cont :: Fill(o + b + OpRef(JMP, At(|o|)), d, after, next) == o + StmtCells(n, s, |o|, brk, cont)
  {
    hide StmtsCells, StmtsLen, StmtLen, OpRef, Fill, Unaffected, Known;
    var post := OpRef(JMP, At(|o|));
    Plain(JMP, 0, |o|);
    KnownUnaffected(post, d);
    FillMiddle(o, b, post, d, after, next);
    FillBody(n, s.body, |o|, d, after, next);
    Assoc2(o, StmtsCells(n, s.body, |o|, At(after), At(next)), post);
  }

  lemma ForParts(p: Program, s: Stmt, inLoop: bool, n: Names)
    requires s.For? && WfStmt(p, s, inLoop)
    ensures WfExpr(p, s.start) && WfExpr(p, s.end) && WfStmts(p, s.body, true) && (s.step.Some? ==> WfExpr(p, s.step.value))
    ensures var n4 := StmtsNames(ExprNames(AddLocal(ExprNames(n, s.start), s.name), s.end), s.body);
            StmtNames(n, s) == if s.step.None? then n4 else ExprNames(n4, s.step.value)
  {
    hide WfExpr, WfStmts, StmtsNames, ExprNames;
  }

  lemma ForCode(n: Names, s: Stmt, base: nat, brk: Target, cont: Target)
    requires s.For?
    ensures var i := IndexOf(n.locals, s.name);
            var top := base + ExprLen(s.start) + 5;
            var bbase := top + ExprLen(s.end) + 11;
            var next := bbase + StmtsLen(s.body);
            var after := top + ForLen(s.end, s.step, s.body);
            StmtCells(n, s, base, brk, cont)
            == ExprCells(n, s.start) + OpImm(STORELOCAL, i)
               + (ForHead(n, i, s.end, s.kind, At(after)) + StmtsCells(n, s.body, bbase, At(after), At(next))
                  + ForTail(n, i, s.step, top))
  {
    hide ExprCells, StmtsCells, ExprLen, StmtsLen, OpRef, OpImm, ForHead, ForTail, ForLen, IndexOf;
  }

  lemma ForLenIs(s: Stmt)
    requires s.For?
    ensures ForLen(s.end, s.step, s.body) == ExprLen(s.end) + StmtsLen(s.body) + StepLen(s.step) + 27
  {
  }

  /** The slot and the earlier pieces of a `for` are the same for its final tables. */
  lemma ForStays(n0: Names, n2: Names, n3: Names, n4: Names, n5: Names, s: Stmt, base: nat, brk: Target, cont: Target)
    requires s.For? && n2 == AddLocal(ExprNames(n0, s.start), s.name) && n3 == ExprNames(n2, s.end)
    requires n4 == StmtsNames(n3, s.body) && n5 == if s.step.None? then n4 else ExprNames(n4, s.step.value)
    ensures IndexOf(n2.locals, s.name) == IndexOf(n5.locals, s.name)
    ensures ExprCells(n2, s.start) == ExprCells(n5, s.start) && ExprCells(n3, s.end) == ExprCells(n5, s.end)
    ensures StmtsCells(n4, s.body, base, brk, cont) == StmtsCells(n5, s.body, base, brk, cont)
  {
    hide ExprCells, StmtsCells, ExprNames, StmtsNames, CoversExpr, CoversStmts;
    ExprCovered(n0, s.start);
    ExprStable(ExprNames(n0, s.start), n2, s.start);
    ExprCovered(n2, s.end);
    StmtsCovered(n3, s.body);
    ExprGrows(n2, s.end);
    StmtsGrow(n3, s.body);
    if s.step.Some? {
      ExprGrows(n4, s.step.value);
    }
    ExprStable(n2, n5, s.start);
    ExprStable(n3, n5, s.end);
    StmtsStable(n4, n5, s.body, base, brk, cont);
    IndexStable(n2.locals, n5.locals, s.name);
  }

  lemma ForHeadIs(n: Names, i: nat, end: Expr, kind: RangeKind, t: Target, o: seq<Cell>)
    ensures o + ForJumpless(n, i, end, kind) + Ref(t) == o + ForHead(n, i, end, kind, t)
  {
    hide ExprCells, OpImm, Ref;
    var a := OpImm(LOADLOCAL, i) + ExprCells(n, end) + Op(if kind.Exclusive? then CMPLT else CMPLE);
    assert o + (a + Op(JZ)) + Ref(t) == o + (a + OpRef(JZ, t));
  }

  lemma ForHeadKnown(n: Names, i: nat, end: Expr, kind: RangeKind, v: nat)
    ensures Known(ForHead(n, i, end, kind, At(v)))
  {
    hide ExprCells, OpImm, OpRef, Known, Op;
    var test := if kind.Exclusive? then CMPLT else CMPLE;
    ExprKnown(n, end);
    Plain(LOADLOCAL, i, 0);
    Plain(test, 0, 0);
    Plain(JZ, 0, v);
    Known4(OpImm(LOADLOCAL, i), ExprCells(n, end), Op(test), OpRef(JZ, At(v)));
  }

  lemma ForTailKnown(n: Names, i: nat, step: Option<Expr>, top: nat)
    ensures Known(ForTail(n, i, step, top))
  {
    hide ExprCells, OpImm, OpRef, Known, Op;
    var inc := if step.None? then OpImm(PUSH, 1) else ExprCells(n, step.value);
    if step.Some? {
      ExprKnown(n, step.value);
    }
    Plain(LOADLOCAL, i, 0);
    Plain(STORELOCAL, i, 0);
    Plain(PUSH, 1, 0);
    Plain(ADD, 0, 0);
    Plain(JMP, 0, top);
    Known4(OpImm(LOADLOCAL, i), inc, Op(ADD), OpImm(STORELOCAL, i));
    KnownConcat(OpImm(LOADLOCAL, i) + inc + Op(ADD) + OpImm(STORELOCAL, i), OpRef(JMP, At(top)));
  }

  lemma ForFilled(n0: Names, n2: Names, n3: Names, n4: Names, n5: Names, s: Stmt, o: seq<Cell>, i: nat,
                  d: nat, after: nat, next: nat)
    requires s.For? && n2 == AddLocal(ExprNames(n0, s.start), s.name) && n3 == ExprNames(n2, s.end)
    requires n4 == StmtsNames(n3, s.body) && n5 == if s.step.None? then n4 else ExprNames(n4, s.step.value)
    requires i == IndexOf(n2.locals, s.name) && d > 0
    requires Unaffected(o + (ExprCells(n2, s.start) + OpImm(STORELOCAL, i)), d)
    requires next == |o| + ExprLen(s.start) + 5 + ExprLen(s.end) + 11 + StmtsLen(s.body)
    requires after == |o| + ExprLen(s.start) + 5 + ForLen(s.end, s.step, s.body)
    ensures var top := |o| + ExprLen(s.start) + 5;
            var b := StmtsCells(n4, s.body, top + ExprLen(s.end) + 11, BreakTarget(d), ContinueTarget(d));
            forall brk, cont ::
              Fill(o + (ExprCells(n2, s.start) + OpImm(STORELOCAL, i)) + ForJumpless(n3, i, s.end, s.kind)
                   + Ref(At(after)) + b + ForTail(n5, i, s.step, top), d, after, next)
              == o + StmtCells(n5, s, |o|, brk, cont)
  {
    hide ExprCells, StmtsCells, StmtCells, ExprNames, StmtsNames, ExprLen, StmtsLen, StmtLen, ForLen, Ref, Op, OpRef,
         OpImm, Fill, Unaffected, Known, ForTail, ForJumpless, IndexOf, ForHead;
    var top := |o| + ExprLen(s.start) + 5;
    var bbase := top + ExprLen(s.end) + 11;
    ForStays(n0, n2, n3, n4, n5, s, bbase, BreakTarget(d), ContinueTarget(d));
    var c := ExprCells(n2, s.start) + OpImm(STORELOCAL, i);
    var p := o + c;
    var h, t := ForHead(n3, i, s.end, s.kind, At(after)), ForTail(n5, i, s.step, top);
    ForHeadIs(n3, i, s.end, s.kind, At(after), p);
    ForHeadKnown(n3, i, s.end, s.kind, after);
    ForTailKnown(n5, i, s.step, top);
    KnownUnaffected(h, d);
    KnownUnaffected(t, d);
    UnaffectedConcat(p, h, d);
    FillMiddle(p + h, StmtsCells(n5, s.body, bbase, BreakOf(d), ContinueOf(d)), t, d, after, next);
    FillBody(n5, s.body, bbase, d, after, next);
    var b' := StmtsCells(n5, s.body, bbase, At(after), At(next));
    HeadStays(n3, n5, i, s.end, s.kind, At(after));
    Assoc3(p, h, b', t);
    Assoc2(o, c, h + b' + t);
    forall brk, cont
      ensures p + h + b' + t == o + StmtCells(n5, s, |o|, brk, cont)
    {
      ForCode(n5, s, |o|, brk, cont);
    }
  }

  lemma HeadStays(n: Names, m: Names, i: nat, end: Expr, kind: RangeKind, t: Target)
    requires ExprCells(n, end) == ExprCells(m, end)
    ensures ForHead(n, i, end, kind, t) == ForHead(m, i, end, kind, t)
  {
    hide ExprCells;
  }

  lemma AwaitsLength(cs: seq<Cell>, f: seq<Cell>, e: set<nat>)
    requires Awaits(cs, f, e)
    ensures |cs| == |f|
  {
  }

  lemma WildcardArm(n: Names, a: Arm, cs: seq<Cell>, f: seq<Cell>, e: set<nat>, b: seq<Cell>, end: nat, brk: Target,
                    cont: Target)
    requires a.pat.Wildcard? && Awaits(cs, f, e) && Grouped(b) && b == StmtsCells(n, a.body, |f| + 1, brk, cont)
    ensures Awaits(cs + Op(POP) + b, f + ArmCells(n, a, |f|, end, brk, cont), e)
  {
    hide StmtsCells, Grouped, Awaits;
    GroupedPlain(Op(POP));
    AwaitsAppend(cs, f, e, Op(POP));
    AwaitsAppend(cs + Op(POP), f + Op(POP), e, b);
    Assoc2(f, Op(POP), b);
  }

  lemma LiteralArm(n: Names, a: Arm, cs: seq<Cell>, f: seq<Cell>, e: set<nat>, b: seq<Cell>, end: nat, brk: Target,
                   cont: Target)
    requires a.pat.LitPat? && Awaits(cs, f, e) && Grouped(b) && b == StmtsCells(n, a.body, |f| + 13, brk, cont)
    ensures var f' := f + ArmCells(n, a, |f|, end, brk, cont);
            && Awaits(cs + Op(DUP) + OpImm(PUSH, a.pat.lit) + Op(CMPEQ) + Op(JZ) + Ref(Pending) + Op(POP) + b
                      + Op(JMP) + Ref(Pending), f', e + {|f| + 8, |f| + 14 + |b|})
            && IsRef(f', |f| + 8, At(|f'|)) && IsRef(f', |f| + 14 + |b|, At(end))
  {
    hide StmtsCells, Grouped, Awaits, Ref, IsRef, OpImm, Op;
    var miss := |f| + ArmLen(a);
    var x := Op(DUP) + OpImm(PUSH, a.pat.lit) + Op(CMPEQ) + Op(JZ);
    TestBytes(a.pat.lit);
    AwaitsAppend(cs, f, e, x);
    AwaitsHole(cs + x, f + x, e, miss);
    var f1, cs1 := f + x + Ref(At(miss)), cs + x + Ref(Pending);
    var e1 := e + {|f + x|};
    AwaitsAppend(cs1, f1, e1, Op(POP));
    AwaitsAppend(cs1 + Op(POP), f1 + Op(POP), e1, b);
    AwaitsAppend(cs1 + Op(POP) + b, f1 + Op(POP) + b, e1, Op(JMP));
    var f2, cs2 := f1 + Op(POP) + b + Op(JMP), cs1 + Op(POP) + b + Op(JMP);
    AwaitsHole(cs2, f2, e1, end);
    var f' := f2 + Ref(At(end));
    ArmRegrouped(n, a, f, b, end, brk, cont);
    RefInside(f1, Op(POP) + b + Op(JMP) + Ref(At(end)), |f + x|, At(miss));
    assert f1 + (Op(POP) + b + Op(JMP) + Ref(At(end))) == f';
    Assoc4(cs, Op(DUP), OpImm(PUSH, a.pat.lit), Op(CMPEQ), Op(JZ));
    assert e1 + {|f2|} == e + {|f| + 8, |f| + 14 + |b|};
  }

  lemma TestBytes(v: i32)
    ensures Grouped(Op(DUP) + OpImm(PUSH, v) + Op(CMPEQ) + Op(JZ)) && |Op(DUP) + OpImm(PUSH, v) + Op(CMPEQ) + Op(JZ)| == 8
    ensures Grouped(Op(POP)) && Grouped(Op(JMP)) && |Op(POP)| == 1 && |Op(JMP)| == 1
  {
    GroupedPlain(Op(DUP) + OpImm(PUSH, v) + Op(CMPEQ) + Op(JZ));
    GroupedPlain(Op(POP));
    GroupedPlain(Op(JMP));
  }

  lemma ArmRegrouped(n: Names, a: Arm, f: seq<Cell>, b: seq<Cell>, end: nat, brk: Target, cont: Target)
    requires a.pat.LitPat? && b == StmtsCells(n, a.body, |f| + 13, brk, cont)
    ensures var x := Op(DUP) + OpImm(PUSH, a.pat.lit) + Op(CMPEQ) + Op(JZ);
            f + x + Ref(At(|f| + ArmLen(a))) + Op(POP) + b + Op(JMP) + Ref(At(end))
            == f + ArmCells(n, a, |f|, end, brk, cont)
  {
    hide StmtsCells, Ref, OpImm, ArmLen;
    var x := Op(DUP) + OpImm(PUSH, a.pat.lit) + Op(CMPEQ);
    var r, q := Ref(At(|f| + ArmLen(a))), OpRef(JMP, At(end));
    var t := ArmTest(a.pat.lit, At(|f| + ArmLen(a)));
    assert x + Op(JZ) + r + Op(POP) == t;
    assert f + (x + Op(JZ)) + r + Op(POP) == f + t;
    assert f + t + b + Op(JMP) + Ref(At(end)) == f + t + b + q;
    Assoc3(f, t, b, q);
  }

  ghost function Elements(s: seq<nat>): set<nat> {
    set o | o in s
  }

  ghost function Waiting(ends: seq<nat>, next: Option<nat>): set<nat> {
    Elements(ends) + (if next.Some? then {next.value} else {})
  }

  /** A match under construction: some jumps wait for its end, one for the next arm. */
  ghost predicate Awaiting(cs: seq<Cell>, f: seq<Cell>, ends: seq<nat>, next: Option<nat>, final: nat) {
    && Awaits(cs, f, Waiting(ends, next))
    && (forall o :: o in ends ==> IsRef(f, o, At(final)))
    && (next.Some? ==> IsRef(f, next.value, At(|f|)) && next.value !in ends)
    && Distinct(ends)
  }

  ghost function MatchSoFar(n: Names, s: Stmt, i: nat, o: seq<Cell>, abase: nat, final: nat, brk: Target,
                            cont: Target): seq<Cell>
    requires s.Match? && i <= |s.arms|
  {
    o + ExprCells(n, s.scrutinee) + ArmsCells(n, s.arms[..i], abase, final, brk, cont)
  }

  lemma NoArms(n: Names, s: Stmt, o: seq<Cell>, abase: nat, final: nat, brk: Target, cont: Target)
    requires s.Match? && Grouped(o + ExprCells(n, s.scrutinee))
    ensures ArmsNames(n, s.arms[..0]) == n
    ensures Awaiting(o + ExprCells(n, s.scrutinee), MatchSoFar(n, s, 0, o, abase, final, brk, cont), [], None, final)
  {
    hide ExprCells, Grouped;
    var f := o + ExprCells(n, s.scrutinee);
    assert f + [] == f;
    UnpatchedNone(f);
    assert Waiting([], None) == {};
  }

  lemma ArmsBefore(n: Names, s: Stmt, i: nat, o: seq<Cell>, abase: nat, final: nat, brk: Target, cont: Target)
    requires s.Match? && i < |s.arms| && abase == |o| + ExprLen(s.scrutinee)
    ensures |MatchSoFar(n, s, i, o, abase, final, brk, cont)| == abase + ArmsLen(s.arms[..i])
  {
  }

  lemma ArmsComplete(n: Names, s: Stmt, o: seq<Cell>, abase: nat, final: nat, brk: Target, cont: Target)
    requires s.Match? && s.arms != [] && abase == |o| + ExprLen(s.scrutinee)
    requires final == abase + ArmsLen(s.arms) + ArmsTailLen(s.arms)
    ensures final == |MatchSoFar(n, s, |s.arms|, o, abase, final, brk, cont)|
                     + if s.arms[|s.arms| - 1].pat.LitPat? then 1 else 0
  {
    assert s.arms[..|s.arms|] == s.arms;
  }

  /** The jump of a missed test lands at the next arm. */
  lemma MatchPatch(cs: seq<Cell>, f: seq<Cell>, ends: seq<nat>, next: Option<nat>, final: nat)
    requires Awaiting(cs, f, ends, next, final) && next.Some?
    ensures |cs| == |f| && IsRef(cs, next.value, Pending)
    ensures Awaiting(Patched(cs, next.value, |f|), f, ends, None, final)
  {
    hide IsRef, Grouped, Unpatched, Patched;
    AwaitsPatch(cs, f, Waiting(ends, next), next.value, |f|);
    assert Waiting(ends, next) - {next.value} == Waiting(ends, None);
  }

  lemma AwaitingNone(cs: seq<Cell>, f: seq<Cell>, ends: seq<nat>, final: nat)
    requires Awaiting(cs, f, ends, None, final)
    ensures Awaits(cs, f, Elements(ends)) && Distinct(ends) && forall o :: o in ends ==> IsRef(f, o, At(final))
  {
    assert Waiting(ends, None) == Elements(ends);
  }

  lemma AwaitingLength(cs: seq<Cell>, f: seq<Cell>, ends: seq<nat>, final: nat)
    requires Awaiting(cs, f, ends, None, final)
    ensures |cs| == |f|
  {
  }

  lemma MatchParts(p: Program, s: Stmt, inLoop: bool, n: Names)
    requires s.Match? && WfStmt(p, s, inLoop)
    ensures WfExpr(p, s.scrutinee) && s.arms != []
    ensures forall i :: 0 <= i < |s.arms| ==> WfStmts(p, s.arms[i].body, inLoop)
    ensures forall i :: 0 <= i < |s.arms| - 1 ==> s.arms[i].pat.LitPat?
    ensures StmtNames(n, s) == ArmsNames(ExprNames(n, s.scrutinee), s.arms)
  {
    hide WfExpr, WfStmts, ArmsNames, ExprNames;
  }

  /** Adding an arm to the match so far. */
  lemma MatchGrows(n0: Names, n1: Names, n2: Names, n3: Names, s: Stmt, i: nat, o: seq<Cell>, abase: nat, final: nat,
                   brk: Target, cont: Target)
    requires s.Match? && i < |s.arms| && abase == |o| + ExprLen(s.scrutinee)
    requires n1 == ExprNames(n0, s.scrutinee) && n2 == ArmsNames(n1, s.arms[..i])
    requires n3 == StmtsNames(n2, s.arms[i].body)
    ensures n3 == ArmsNames(n1, s.arms[..i + 1])
    ensures var f := MatchSoFar(n2, s, i, o, abase, final, brk, cont);
            MatchSoFar(n3, s, i + 1, o, abase, final, brk, cont) == f + ArmCells(n3, s.arms[i], |f|, final, brk, cont)
  {
    hide ExprNames, StmtsNames, ExprCells, ArmCells, CoversExpr, CoversStmts, CoversArms, ArmLen, ExprLen;
    var as1 := s.arms[..i + 1];
    assert as1[..i] == s.arms[..i];
    ExprCovered(n0, s.scrutinee);
    ArmsGrow(n1, s.arms[..i]);
    ExprStable(n1, n2, s.scrutinee);
    StmtsGrow(n2, s.arms[i].body);
    ExprStable(n2, n3, s.scrutinee);
    ArmsCovered(n1, s.arms[..i]);
    ArmsStable(n2, n3, s.arms[..i], abase, final, brk, cont);
    ArmsLast(n3, s, i, abase, final, brk, cont);
    Assoc2(o + ExprCells(n3, s.scrutinee), ArmsCells(n3, s.arms[..i], abase, final, brk, cont),
           ArmCells(n3, s.arms[i], abase + ArmsLen(s.arms[..i]), final, brk, cont));
  }

  lemma ArmsLast(n: Names, s: Stmt, i: nat, abase: nat, final: nat, brk: Target, cont: Target)
    requires s.Match? && i < |s.arms|
    ensures ArmsCells(n, s.arms[..i + 1], abase, final, brk, cont)
            == ArmsCells(n, s.arms[..i], abase, final, brk, cont)
               + ArmCells(n, s.arms[i], abase + ArmsLen(s.arms[..i]), final, brk, cont)
  {
    hide ArmCells, ArmLen;
    assert s.arms[..i + 1][..i] == s.arms[..i];
  }

  lemma ArmAdded(cs: seq<Cell>, f: seq<Cell>, g: seq<Cell>, ends: seq<nat>, miss: Option<nat>, out: Option<nat>,
                 final: nat)
    requires miss.Some? == out.Some? && Distinct(ends)
    requires forall o :: o in ends ==> IsRef(f, o, At(final))
    requires if miss.None? then Awaits(cs, f + g, Elements(ends))
             else
               && |f| <= miss.value < out.value && Awaits(cs, f + g, Elements(ends) + {miss.value, out.value})
               && IsRef(f + g, miss.value, At(|f + g|)) && IsRef(f + g, out.value, At(final))
    ensures Awaiting(cs, f + g, if out.Some? then ends + [out.value] else ends, miss, final)
  {
    hide Awaits;
    var ends' := if out.Some? then ends + [out.value] else ends;
    forall o | o in ends
      ensures IsRef(f + g, o, At(final)) && o < |f|
    {
      RefInside(f, g, o, At(final));
    }
    if out.None? {
      assert Waiting(ends, None) == Elements(ends);
    } else {
      assert Waiting(ends', miss) == Elements(ends) + {miss.value, out.value};
    }
  }

  lemma EndPatch(cs: seq<Cell>, g: seq<Cell>, ends: seq<nat>, final: nat)
    requires Awaiting(cs, g, ends, None, final) && ends != []
    ensures IsRef(cs, ends[0], Pending)
    ensures Awaiting(Patched(cs, ends[0], final), g, ends[1..], None, final)
  {
    hide IsRef, Grouped, Unpatched, Patched, Awaits;
    var off := ends[0];
    AwaitsPatch(cs, g, Waiting(ends, None), off, final);
    var rest := ends[1..];
    assert forall i :: 0 <= i < |rest| ==> rest[i] == ends[i + 1];
    assert off !in rest;
    assert forall o :: o in ends <==> o == off || o in rest;
    assert Waiting(ends, None) - {off} == Waiting(rest, None);
  }

  lemma AllPatched(cs: seq<Cell>, g: seq<Cell>, ends: seq<nat>, final: nat)
    requires Awaiting(cs, g, ends, None, final) && ends == []
    ensures cs == g
  {
    assert Waiting(ends, None) == {};
    UnpatchedNone(g);
  }

  lemma MatchAssembled(n: Names, s: Stmt, o: seq<Cell>, brk: Target, cont: Target)
    requires s.Match? && s.arms != []
    ensures var abase := |o| + ExprLen(s.scrutinee);
            var final := abase + ArmsLen(s.arms) + ArmsTailLen(s.arms);
            MatchSoFar(n, s, |s.arms|, o, abase, final, brk, cont)
            + (if s.arms[|s.arms| - 1].pat.LitPat? then Op(POP) else [])
            == o + StmtCells(n, s, |o|, brk, cont)
  {
    hide ExprCells, ArmsCells, ExprLen, ArmsLen, StmtLen, Op;
    var abase := |o| + ExprLen(s.scrutinee);
    var final := abase + ArmsLen(s.arms) + ArmsTailLen(s.arms);
    assert s.arms[..|s.arms|] == s.arms;
    Assoc3(o, ExprCells(n, s.scrutinee), ArmsCells(n, s.arms, abase, final, brk, cont),
           if s.arms[|s.arms| - 1].pat.LitPat? then Op(POP) else []);
  }

  lemma AwaitingPop(cs: seq<Cell>, f: seq<Cell>, ends: seq<nat>, final: nat)
    requires Awaiting(cs, f, ends, None, final)
    ensures Awaiting(cs + Op(POP), f + Op(POP), ends, None, final)
  {
    hide IsRef, Unpatched;
    GroupedPlain(Op(POP));
    AwaitsAppend(cs, f, Waiting(ends, None), Op(POP));
    forall o | o in ends
      ensures IsRef(f + Op(POP), o, At(final))
    {
      RefInside(f, Op(POP), o, At(final));
    }
  }

  lemma FnsNone(consts: seq<(string, i32)>)
    ensures PoolOf([], consts) == [] && Entries([]) == [] && FnsCells([], consts, []) == []
  {
  }

  /** A function's code is the same for a larger string pool. */
  lemma FnStable(n: Names, m: Names, f: FnDef, base: nat)
    requires Extends(n, m) && CoversStmts(n, f.body)
    ensures FnCells(n, f, base) == FnCells(m, f, base)
  {
    hide StmtsCells, CoversStmts;
    StmtsStable(n, m, f.body, base, At(0), At(0));
  }

  lemma {:induction false} FnsStable(fns: seq<FnDef>, consts: seq<(string, i32)>, pool: seq<seq<u8>>)
    requires PoolOf(fns, consts) <= pool
    ensures FnsCells(fns, consts, PoolOf(fns, consts)) == FnsCells(fns, consts, pool)
    ensures forall q :: PoolOf(fns, consts) <= q ==> FnsCells(fns, consts, q) == FnsCells(fns, consts, pool)
  {
    hide FnCells, CoversStmts, StmtsNames;
    if fns != [] {
      var k := |fns| - 1;
      var p0 := PoolOf(fns[..k], consts);
      FnLocals(p0, consts, fns[k]);
      FnsStable(fns[..k], consts, pool);
      var n := FnNames(p0, consts, fns[k]);
      StmtsCovered(AddLocals(Names([], p0, consts), fns[k].params), fns[k].body);
      forall q | PoolOf(fns, consts) <= q
        ensures FnsCells(fns, consts, q) == FnsCells(fns, consts, pool)
      {
        FnStable(n, Names(SlotsOf(consts, fns[k]), q, consts), fns[k], FnsLen(fns[..k]));
        FnStable(n, Names(SlotsOf(consts, fns[k]), pool, consts), fns[k], FnsLen(fns[..k]));
      }
    }
  }

  /** Emitting one more function extends the program so far. */
  lemma FnsGrow(fns: seq<FnDef>, i: nat, consts: seq<(string, i32)>, pool: seq<seq<u8>>, n: Names)
    requires i < |fns| && pool == PoolOf(fns[..i], consts) && n == FnNames(pool, consts, fns[i])
    ensures n.pool == PoolOf(fns[..i + 1], consts)
    ensures Entries(fns[..i + 1]) == Entries(fns[..i]) + [(fns[i].name, |FnsCells(fns[..i], consts, pool)|)]
    ensures FnsCells(fns[..i + 1], consts, n.pool)
            == FnsCells(fns[..i], consts, pool) + FnCells(n, fns[i], |FnsCells(fns[..i], consts, pool)|)
  {
    hide FnCells, FnNames, FnLen;
    var gs := fns[..i + 1];
    assert gs[..i] == fns[..i] && gs[i] == fns[i];
    FnLocals(pool, consts, fns[i]);
    FnsStable(fns[..i], consts, n.pool);
  }

  /** The code when the calls at the listed offsets have been patched. */
  ghost function CallBytes(cs: seq<Cell>, entries: seq<(string, nat)>, done: seq<(nat, string)>): (r: seq<u8>)
    ensures |r| == |cs|
    ensures forall i :: 0 <= i < |cs| ==> r[i] == CallByte(cs[i], i, entries, done)
  {
    seq(|cs|, i requires 0 <= i < |cs| => CallByte(cs[i], i, entries, done))
  }

  ghost function CallByte(c: Cell, i: nat, entries: seq<(string, nat)>, done: seq<(nat, string)>): u8 {
    if c.Addr? && c.t.FnEntry? && c.k < 4 && c.k <= i && (i - c.k, c.t.fname) in done
    then Le32(EntryAddr(entries, c.t.fname))[c.k]
    else RawByte(c)
  }

  lemma CallByteNext(c: Cell, p: nat, entries: seq<(string, nat)>, patches: seq<(nat, string)>, i: nat)
    requires i < |patches|
    requires var (off, f) := patches[i]; off <= p < off + 4 ==> c == Addr(FnEntry(f), p - off)
    ensures var (off, f) := patches[i];
            CallByte(c, p, entries, patches[..i + 1])
            == if off <= p < off + 4 then Le32(EntryAddr(entries, f))[p - off] else CallByte(c, p, entries, patches[..i])
  {
    hide Le32, EntryAddr;
    var (off, f) := patches[i];
    assert patches[..i + 1] == patches[..i] + [(off, f)];
  }

  lemma CallPatched(cs: seq<Cell>, entries: seq<(string, nat)>, patches: seq<(nat, string)>, i: nat)
    requires Grouped(cs) && patches == FnHoles(cs) && i < |patches|
    ensures var (off, f) := patches[i];
            var code := CallBytes(cs, entries, patches[..i]);
            && off + 4 <= |code|
            && CallBytes(cs, entries, patches[..i + 1]) == code[..off] + Le32(EntryAddr(entries, f)) + code[off + 4..]
  {
    hide Le32, EntryAddr, IsRef, Grouped, CallByte, FnHoles;
    var (off, f) := patches[i];
    assert patches[i] in patches;
    FnHoleRef(cs, off, f);
    RefCell(cs, off, FnEntry(f), off + 3);
    var a, b := CallBytes(cs, entries, patches[..i]), CallBytes(cs, entries, patches[..i + 1]);
    var r := a[..off] + Le32(EntryAddr(entries, f)) + a[off + 4..];
    forall p | 0 <= p < |cs|
      ensures b[p] == r[p]
    {
      if off <= p < off + 4 {
        RefCell(cs, off, FnEntry(f), p);
      }
      CallByteNext(cs[p], p, entries, patches, i);
    }
    assert b == r;
  }

  lemma FnHoleRef(cs: seq<Cell>, off: nat, f: string)
    requires Grouped(cs) && (off, f) in FnHoles(cs)
    ensures IsRef(cs, off, FnEntry(f))
  {
    hide Grouped, IsRef, FnHoles;
    FnHolesAre(cs, off, f);
    GroupStart(cs, off, FnEntry(f));
  }

  lemma CallsDone(cs: seq<Cell>, entries: seq<(string, nat)>, patches: seq<(nat, string)>)
    requires Grouped(cs) && patches == FnHoles(cs)
    ensures CallBytes(cs, entries, patches[..|patches|]) == CellBytes(cs, entries)
  {
    hide Grouped, CallByte, FnHoles, CellByte;
    assert patches[..|patches|] == patches;
    var a, b := CallBytes(cs, entries, patches), CellBytes(cs, entries);
    forall p | 0 <= p < |cs|
      ensures a[p] == b[p]
    {
      CallDone(cs, entries, patches, p);
    }
  }

  lemma CallDone(cs: seq<Cell>, entries: seq<(string, nat)>, patches: seq<(nat, string)>, p: nat)
    requires Grouped(cs) && patches == FnHoles(cs) && p < |cs|
    ensures CallByte(cs[p], p, entries, patches) == CellByte(cs[p], entries)
  {
    hide Le32, EntryAddr, Grouped, FnHoles;
    GroupInside(cs, p);
    if cs[p].Addr? && cs[p].t.FnEntry? {
      FnHolesAre(cs, p - cs[p].k, cs[p].t.fname);
    }
  }

  lemma IfParts(p: Program, s: Stmt, inLoop: bool, n: Names)
    requires s.If? && WfStmt(p, s, inLoop)
    ensures WfExpr(p, s.cond) && WfStmts(p, s.thn, inLoop) && WfStmts(p, s.els, inLoop)
    ensures StmtNames(n, s) == StmtsNames(StmtsNames(ExprNames(n, s.cond), s.thn), s.els)
  {
    hide WfExpr, WfStmts, StmtsNames, ExprNames;
  }

  lemma IfCode(n: Names, s: Stmt, base: nat, brk: Target, cont: Target)
    requires s.If?
    ensures var tbase := base + ExprLen(s.cond) + 5;
            var ebase := tbase + StmtsLen(s.thn) + 5;
            StmtCells(n, s, base, brk, cont)
            == ExprCells(n, s.cond) + OpRef(JZ, At(ebase)) + StmtsCells(n, s.thn, tbase, brk, cont)
               + OpRef(JMP, At(ebase + StmtsLen(s.els))) + StmtsCells(n, s.els, ebase, brk, cont)
  {
    hide ExprCells, StmtsCells, ExprLen, StmtsLen, Ref, OpRef;
  }

  lemma IfRegrouped(o: seq<Cell>, c: seq<Cell>, t: seq<Cell>, e: seq<Cell>, ea: nat, end: nat)
    ensures o + c + Op(JZ) + Ref(At(ea)) + t + Op(JMP) + Ref(At(end)) + e
            == o + (c + OpRef(JZ, At(ea)) + t + OpRef(JMP, At(end)) + e)
  {
    hide Ref;
    var p, q := OpRef(JZ, At(ea)), OpRef(JMP, At(end));
    assert o + c + Op(JZ) + Ref(At(ea)) == o + c + p;
    assert o + c + p + t + Op(JMP) + Ref(At(end)) == o + c + p + t + q;
    assert o + c + p + t + q == o + (c + p + t + q);
    Assoc2(o, c + p + t + q, e);
  }

  lemma IfStays(n0: Names, n1: Names, n2: Names, n3: Names, s: Stmt, base: nat, brk: Target, cont: Target)
    requires s.If? && n1 == ExprNames(n0, s.cond) && n2 == StmtsNames(n1, s.thn) && n3 == StmtsNames(n2, s.els)
    ensures ExprCells(n1, s.cond) == ExprCells(n3, s.cond)
    ensures var tbase := base + ExprLen(s.cond) + 5;
            StmtsCells(n2, s.thn, tbase, brk, cont) == StmtsCells(n3, s.thn, tbase, brk, cont)
  {
    hide ExprCells, StmtsCells, ExprNames, StmtsNames, CoversExpr, CoversStmts;
    ExprCovered(n0, s.cond);
    StmtsCovered(n1, s.thn);
    StmtsGrow(n1, s.thn);
    StmtsGrow(n2, s.els);
    ExprStable(n1, n3, s.cond);
    StmtsStable(n2, n3, s.thn, base + ExprLen(s.cond) + 5, brk, cont);
  }

  lemma Assoc3<T>(o: seq<T>, a: seq<T>, b: seq<T>, c: seq<T>)
    ensures o + a + b + c == o + (a + b + c)
  {
  }

  lemma {:induction false} IndexOfLast<T>(s: seq<T>, x: T)
    requires x !in s
    ensures IndexOf(s + [x], x) == |s|
  {
  }

  /** The code of the first operand is the same for the tables after the second. */
  lemma ExprStays(n0: Names, n1: Names, n2: Names, a: Expr, b: Expr)
    requires n1 == ExprNames(n0, a) && n2 == ExprNames(n1, b)
    ensures ExprCells(n1, a) == ExprCells(n2, a)
  {
    ExprCovered(n0, a);
    ExprGrows(n1, b);
    ExprStable(n1, n2, a);
  }

  lemma ArgsStay(n0: Names, n1: Names, n2: Names, args: seq<Expr>, i: nat)
    requires i < |args| && n1 == ArgsNames(n0, args[..i]) && n2 == ExprNames(n1, args[i])
    ensures n2 == ArgsNames(n0, args[..i + 1])
    ensures ArgsCells(n1, args[..i]) + ExprCells(n2, args[i]) == ArgsCells(n2, args[..i + 1])
  {
    assert args[..i + 1][..i] == args[..i];
    ArgsCovered(n0, args[..i]);
    ExprGrows(n1, args[i]);
    ArgsStable(n1, n2, args[..i]);
  }

  lemma AppendRaw(code: seq<u8>, cs: seq<Cell>, t: Target, v: nat)
    requires IsRaw(code, cs) && if t.At? then t.addr == v else v == 0
    ensures IsRaw(code + Le32(v), cs + Ref(t))
  {
    assert Le32(0) == [0, 0, 0, 0];
    hide Le32;
    forall i | 0 <= i < |cs| + 4
      ensures (code + Le32(v))[i] == RawByte((cs + Ref(t))[i])
    {
      if i >= |cs| {
        assert (cs + Ref(t))[i] == Addr(t, i - |cs|);
      }
    }
  }

  lemma {:induction false} GroupedAppendBytes(cs: seq<Cell>, bs: seq<u8>)
    requires Grouped(cs)
    ensures Grouped(cs + Lits(bs))
  {
    if bs == [] {
      assert cs + Lits(bs) == cs;
    } else {
      var k := |bs| - 1;
      GroupedAppendBytes(cs, bs[..k]);
      GroupedAppendByte(cs + Lits(bs[..k]), bs[k]);
      assert cs + Lits(bs) == cs + Lits(bs[..k]) + [Byte(bs[k])];
    }
  }

  lemma AppendBytes(cs: seq<Cell>, bs: seq<u8>, loops: seq<LoopCtx>)
    requires Grouped(cs) && LoopsMatch(loops, cs) && OpenTargets(cs, |loops|)
    ensures Grouped(cs + Lits(bs)) && FnHoles(cs + Lits(bs)) == FnHoles(cs)
    ensures LoopsMatch(loops, cs + Lits(bs)) && OpenTargets(cs + Lits(bs), |loops|)
  {
    GroupedAppendBytes(cs, bs);
    HolesOfBytes(cs, Lits(bs), Pending);
    forall j | 0 <= j < |loops|
      ensures LoopMatches(loops[j], cs + Lits(bs), j + 1)
    {
      assert LoopMatches(loops[j], cs, j + 1);
      HolesOfBytes(cs, Lits(bs), BreakOf(j + 1));
      HolesOfBytes(cs, Lits(bs), ContinueOf(j + 1));
    }
  }

  lemma OpenAppendRef(cs: seq<Cell>, t: Target, n: nat)
    requires OpenTargets(cs, n) && OpenTarget(t, n)
    ensures OpenTargets(cs + Ref(t), n)
  {
    var cs' := cs + Ref(t);
    forall i | 0 <= i < |cs'| && cs'[i].Addr?
      ensures OpenTarget(cs'[i].t, n)
    {
      assert cs'[i] == if i < |cs| then cs[i] else Addr(t, i - |cs|);
    }
  }

  /** An address no loop waits for. */
  lemma AppendRef(cs: seq<Cell>, t: Target, loops: seq<LoopCtx>)
    requires Grouped(cs) && LoopsMatch(loops, cs) && OpenTargets(cs, |loops|) && OpenTarget(t, |loops|)
    ensures Grouped(cs + Ref(t))
    ensures FnHoles(cs + Ref(t)) == FnHoles(cs) + if t.FnEntry? then [(|cs|, t.fname)] else []
    ensures OpenTargets(cs + Ref(t), |loops|)
    ensures !t.BreakOf? && !t.ContinueOf? ==> LoopsMatch(loops, cs + Ref(t))
  {
    hide Grouped, Holes, FnHoles, Ref;
    GroupedAppendRef(cs, t);
    HolesOfRef(cs, t, t);
    OpenAppendRef(cs, t, |loops|);
    if !t.BreakOf? && !t.ContinueOf? {
      forall j | 0 <= j < |loops|
        ensures LoopMatches(loops[j], cs + Ref(t), j + 1)
      {
        assert LoopMatches(loops[j], cs, j + 1);
        HolesOfRef(cs, t, BreakOf(j + 1));
        HolesOfRef(cs, t, ContinueOf(j + 1));
      }
    }
  }

  /** A jump of the innermost loop: its context notes the offset. */
  lemma AppendJump(cs: seq<Cell>, isBreak: bool, loops: seq<LoopCtx>)
    requires LoopsMatch(loops, cs) && |loops| > 0
    ensures var k := |loops| - 1;
            var ctx := loops[k];
            var ctx' := if isBreak then ctx.(breakPatches := ctx.breakPatches + [|cs|])
                        else ctx.(continuePatches := ctx.continuePatches + [|cs|]);
            LoopsMatch(loops[k := ctx'], cs + Ref(if isBreak then BreakOf(|loops|) else ContinueOf(|loops|)))
  {
    hide Holes;
    var k := |loops| - 1;
    var ctx := loops[k];
    var t := if isBreak then BreakOf(|loops|) else ContinueOf(|loops|);
    var ctx' := if isBreak then ctx.(breakPatches := ctx.breakPatches + [|cs|])
                else ctx.(continuePatches := ctx.continuePatches + [|cs|]);
    var after := loops[k := ctx'];
    forall j | 0 <= j < |after|
      ensures LoopMatches(after[j], cs + Ref(t), j + 1)
    {
      assert LoopMatches(loops[j], cs, j + 1);
      HolesOfRef(cs, t, BreakOf(j + 1));
      HolesOfRef(cs, t, ContinueOf(j + 1));
    }
  }

  lemma RawLength(code: seq<u8>, cs: seq<Cell>)
    requires IsRaw(code, cs)
    ensures |code| == |cs|
  {
  }

  lemma PatchRaw(code: seq<u8>, cs: seq<Cell>, off: nat, v: nat)
    requires IsRaw(code, cs) && off + 4 <= |cs|
    ensures IsRaw(code[..off] + Le32(v) + code[off + 4..], Patched(cs, off, v))
  {
    hide Le32;
    var code', cs' := code[..off] + Le32(v) + code[off + 4..], Patched(cs, off, v);
    forall i | 0 <= i < |cs'|
      ensures code'[i] == RawByte(cs'[i])
    {
    }
  }

  lemma PatchFnHoles(cs: seq<Cell>, off: nat, t: Target, v: nat)
    requires IsRef(cs, off, t) && !t.FnEntry?
    ensures FnHoles(Patched(cs, off, v)) == FnHoles(cs)
  {
    var cs' := Patched(cs, off, v);
    forall i | 0 <= i < |cs|
      ensures IsFnHole(cs[i]) || IsFnHole(cs'[i]) ==> cs[i] == cs'[i]
    {
      if off <= i < off + 4 {
        RefCell(cs, off, t, i);
      }
    }
    FnHolesSame(cs', cs);
  }

  lemma PatchLoops(cs: seq<Cell>, off: nat, v: nat, loops: seq<LoopCtx>)
    requires IsRef(cs, off, Pending) && LoopsMatch(loops, cs) && OpenTargets(cs, |loops|)
    ensures LoopsMatch(loops, Patched(cs, off, v)) && OpenTargets(Patched(cs, off, v), |loops|)
  {
    var cs' := Patched(cs, off, v);
    forall i | 0 <= i < |cs|
      ensures cs[i] == cs'[i] || (cs[i].Addr? && cs[i].t == Pending && cs'[i].Addr? && cs'[i].t == At(v))
    {
      if off <= i < off + 4 {
        RefCell(cs, off, Pending, i);
      }
    }
    forall j | 0 <= j < |loops|
      ensures LoopMatches(loops[j], cs', j + 1)
    {
      assert LoopMatches(loops[j], cs, j + 1);
      HolesSame(cs, cs', BreakOf(j + 1));
      HolesSame(cs, cs', ContinueOf(j + 1));
    }
  }

  lemma PushLoops(cs: seq<Cell>, loops: seq<LoopCtx>, ctx: LoopCtx)
    requires LoopsMatch(loops, cs) && OpenTargets(cs, |loops|)
    requires ctx.breakPatches == [] && ctx.continuePatches == []
    ensures LoopsMatch(loops + [ctx], cs) && OpenTargets(cs, |loops| + 1)
  {
    NoHoles(cs, BreakOf(|loops| + 1));
    NoHoles(cs, ContinueOf(|loops| + 1));
    var loops' := loops + [ctx];
    forall j | 0 <= j < |loops'|
      ensures LoopMatches(loops'[j], cs, j + 1)
    {
      assert j < |loops| ==> LoopMatches(loops[j], cs, j + 1);
    }
  }

  lemma {:induction false} NoHoles(cs: seq<Cell>, t: Target)
    requires forall i :: 0 <= i < |cs| && cs[i].Addr? ==> cs[i].t != t
    ensures Holes(cs, t) == []
  {
    if cs != [] {
      NoHoles(cs[..|cs| - 1], t);
    }
  }

  /** Replacing one target by another. */
  function Retarget(cs: seq<Cell>, t: Target, u: Target): (r: seq<Cell>)
    ensures |r| == |cs|
    ensures forall i :: 0 <= i < |cs| ==> r[i] == if cs[i].Addr? && cs[i].t == t then Addr(u, cs[i].k) else cs[i]
  {
    seq(|cs|, i requires 0 <= i < |cs| => if cs[i].Addr? && cs[i].t == t then Addr(u, cs[i].k) else cs[i])
  }

  /** The cells when only the holes at the listed offsets have been patched. */
  function RetargetSome(cs: seq<Cell>, t: Target, v: nat, offs: seq<nat>): (r: seq<Cell>)
    ensures |r| == |cs|
    ensures forall i :: 0 <= i < |cs| ==> r[i] == RetargetCell(cs[i], i, t, v, offs)
  {
    seq(|cs|, i requires 0 <= i < |cs| => RetargetCell(cs[i], i, t, v, offs))
  }

  function RetargetCell(c: Cell, i: nat, t: Target, v: nat, offs: seq<nat>): Cell {
    if c.Addr? && c.t == t && c.k <= i && i - c.k in offs then Addr(At(v), c.k) else c
  }

  lemma HoleRef(cs: seq<Cell>, t: Target, offs: seq<nat>, i: nat)
    requires Grouped(cs) && offs == Holes(cs, t) && i < |offs|
    ensures IsRef(cs, offs[i], t)
  {
    HolesAre(cs, t, offs[i]);
    assert GroupAt(cs, offs[i]);
  }

  ghost predicate Ascending(h: seq<nat>) {
    forall i, j :: 0 <= i < j < |h| ==> h[i] < h[j]
  }

  lemma {:induction false} HolesAscend(cs: seq<Cell>, t: Target)
    ensures Ascending(Holes(cs, t))
  {
    if cs != [] {
      var k := |cs| - 1;
      HolesAscend(cs[..k], t);
      var h := Holes(cs[..k], t);
      forall i | 0 <= i < |h|
        ensures h[i] < k
      {
        HolesAre(cs[..k], t, h[i]);
      }
      assert Ascending(h + [k]);
    }
  }

  lemma NotBefore(h: seq<nat>, i: nat)
    requires Ascending(h) && i < |h|
    ensures h[i] !in h[..i]
  {
  }

  lemma RetargetNextAt(c: Cell, p: nat, t: Target, v: nat, offs: seq<nat>, i: nat)
    requires i < |offs| && offs[i] !in offs[..i] && !t.At?
    requires c.Addr? ==> c.k < 4
    requires offs[i] <= p < offs[i] + 4 ==> c == Addr(t, p - offs[i])
    ensures offs[i] <= p < offs[i] + 4 ==> RetargetCell(c, p, t, v, offs[..i]) == Addr(t, p - offs[i])
    ensures RetargetCell(c, p, t, v, offs[..i + 1])
            == if offs[i] <= p < offs[i] + 4 then Addr(At(v), p - offs[i]) else RetargetCell(c, p, t, v, offs[..i])
  {
    assert offs[..i + 1] == offs[..i] + [offs[i]];
  }

  lemma RetargetNextCell(cs: seq<Cell>, t: Target, v: nat, offs: seq<nat>, i: nat, p: nat)
    requires Grouped(cs) && i < |offs| && IsRef(cs, offs[i], t) && offs[i] !in offs[..i] && !t.At?
    requires p < |cs|
    ensures var off, c := offs[i], RetargetCell(cs[p], p, t, v, offs[..i]);
            && (off <= p < off + 4 ==> c == Addr(t, p - off))
            && RetargetCell(cs[p], p, t, v, offs[..i + 1]) == if off <= p < off + 4 then Addr(At(v), p - off) else c
  {
    hide IsRef, Grouped, RetargetCell;
    if offs[i] <= p < offs[i] + 4 {
      RefCell(cs, offs[i], t, p);
    }
    if cs[p].Addr? {
      GroupIndex(cs, p);
    }
    RetargetNextAt(cs[p], p, t, v, offs, i);
  }

  lemma RetargetNext(cs: seq<Cell>, t: Target, v: nat, offs: seq<nat>, i: nat)
    requires Grouped(cs) && offs == Holes(cs, t) && i < |offs| && !t.At?
    ensures IsRef(RetargetSome(cs, t, v, offs[..i]), offs[i], t)
    ensures RetargetSome(cs, t, v, offs[..i + 1]) == Patched(RetargetSome(cs, t, v, offs[..i]), offs[i], v)
  {
    hide IsRef, Holes, Grouped, RetargetCell, Ascending;
    var off := offs[i];
    HoleRef(cs, t, offs, i);
    HolesAscend(cs, t);
    NotBefore(offs, i);
    RefCell(cs, off, t, off + 3);
    forall p | 0 <= p < |cs|
      ensures var c := RetargetCell(cs[p], p, t, v, offs[..i]);
              && (off <= p < off + 4 ==> c == Addr(t, p - off))
              && RetargetCell(cs[p], p, t, v, offs[..i + 1]) == if off <= p < off + 4 then Addr(At(v), p - off) else c
    {
      RetargetNextCell(cs, t, v, offs, i, p);
    }
    var a, b := RetargetSome(cs, t, v, offs[..i]), RetargetSome(cs, t, v, offs[..i + 1]);
    AllRef(a, off, t);
    assert forall p :: 0 <= p < |cs| ==> b[p] == Patched(a, off, v)[p];
    assert b == Patched(a, off, v);
  }

  lemma RetargetAll(cs: seq<Cell>, t: Target, v: nat, offs: seq<nat>)
    requires Grouped(cs) && offs == Holes(cs, t)
    ensures RetargetSome(cs, t, v, offs[..|offs|]) == Retarget(cs, t, At(v))
  {
    assert offs[..|offs|] == offs;
    var a, b := RetargetSome(cs, t, v, offs), Retarget(cs, t, At(v));
    forall p | 0 <= p < |cs|
      ensures a[p] == b[p]
    {
      if cs[p].Addr? && cs[p].t == t {
        assert GroupAt(cs, p);
        HolesAre(cs, t, p - cs[p].k);
      }
    }
  }

  lemma RetargetHoles(cs: seq<Cell>, t: Target, v: nat, u: Target)
    requires t != u && !u.At?
    ensures Holes(Retarget(cs, t, At(v)), u) == Holes(cs, u)
  {
    HolesSame(cs, Retarget(cs, t, At(v)), u);
  }

  lemma RetargetTwice(cs: seq<Cell>, d: nat, after: nat, next: nat)
    ensures Retarget(Retarget(cs, BreakOf(d), At(after)), ContinueOf(d), At(next)) == Fill(cs, d, after, next)
  {
  }

  lemma PopLoops(cs: seq<Cell>, loops: seq<LoopCtx>, after: nat, next: nat)
    requires |loops| > 0 && LoopsMatch(loops, cs) && OpenTargets(cs, |loops|)
    ensures var cs', d := Fill(cs, |loops|, after, next), |loops| - 1;
            LoopsMatch(loops[..d], cs') && OpenTargets(cs', d)
  {
    var d := |loops| - 1;
    var cs' := Fill(cs, d + 1, after, next);
    forall j | 0 <= j < d
      ensures LoopMatches(loops[..d][j], cs', j + 1)
    {
      assert LoopMatches(loops[j], cs, j + 1);
      HolesSame(cs, cs', BreakOf(j + 1));
      HolesSame(cs, cs', ContinueOf(j + 1));
    }
  }
}
