/** The compiled code does what the source does: every finished evaluation is a run of the machine. */
module HeliosSimulation {
  import opened Bits
  import opened HeliosAst
  import opened Wrappers
  import opened HeliosSemantics
  import opened HeliosCode
  import opened HeliosVm
  import opened HeliosLink

  /** Each assigned variable sits in its slot, below the stack pointer, and the outputs agree. */
  ghost predicate Rel(n: Names, s: Store, st: State) {
    && st.out == s.out
    && forall x :: x in s.vars ==> Holds(n, x, s.vars[x], st)
  }

  ghost predicate Holds(n: Names, x: string, v: i32, st: State) {
    && x in n.locals
    && st.fp + IndexOf(n.locals, x) < st.sp <= |st.stack|
    && st.stack[st.fp + IndexOf(n.locals, x)] == v
  }

  /** Same stack contents below k, same frames, same frame pointer. */
  ghost predicate SameBelow(a: State, b: State, k: nat) {
    && |a.stack| == |b.stack| && k <= |a.stack|
    && (forall i :: 0 <= i < k ==> a.stack[i] == b.stack[i])
    && a.fp == b.fp && a.frames == b.frames
  }

  /** Room for `need` more slots in the frame, and for `depth` further calls. */
  ghost predicate Room(l: Linked, st: State, depth: nat, need: nat) {
    && st.fp <= st.sp
    && st.sp + need <= st.fp + l.k
    && st.fp + StackNeed(l.k, depth) <= |st.stack| < 0x8000_0000
    && |st.frames| + depth <= VM_DEPTH
  }

  lemma RoomInside(l: Linked, st: State, depth: nat, need: nat)
    requires Room(l, st, depth, need)
    ensures st.sp + need <= |st.stack|
  {
    assert StackNeed(l.k, depth) >= l.k;
  }

  ghost predicate Env(l: Linked, n: Names) {
    ValidLinked(l) && n.consts == l.p.consts && n.pool == l.m.pool
  }

  /** The machine is about to run the code of e in a state that represents s. */
  ghost predicate ExprAt(l: Linked, n: Names, e: Expr, s: Store, st: State, depth: nat) {
    && Env(l, n)
    && WfExpr(l.p, e) && CoversExpr(n, e)
    && HasCells(l.m.code, st.pc, ExprCells(n, e), l.entries)
    && Rel(n, s, st) && Room(l, st, depth, ExprDepth(e))
  }

  ghost predicate ExprReady(l: Linked, n: Names, e: Expr, s: Store, st: State, depth: nat, fuel: nat) {
    ExprAt(l, n, e, s, st, depth) && EvalExpr(l.p, e, s, depth, fuel).Value?
  }

  /** After k instructions there is one more live slot, holding the value; nothing below changed. */
  ghost predicate Pushed(m: Machine, st: State, k: nat, st': State, len: nat, v: i32, out: seq<u8>) {
    && Steps(m, st, k) == Some(st')
    && SameBelow(st, st', st.sp)
    && st'.pc == st.pc + len
    && st'.sp == st.sp + 1 <= |st'.stack|
    && st'.stack[st.sp] == v
    && st'.out == out
  }

  ghost predicate ExprDone(l: Linked, e: Expr, s: Store, st: State, depth: nat, fuel: nat, k: nat, st': State) {
    var r := EvalExpr(l.p, e, s, depth, fuel);
    r.Value? && Pushed(l.m, st, k, st', ExprLen(e), r.v, r.out)
  }

  lemma Then(m: Machine, s: State, a: nat, s1: State, s2: State) returns (n: nat)
    requires Steps(m, s, a) == Some(s1) && Step(m, s1) == Go(s2)
    ensures Steps(m, s, n) == Some(s2) && n > 0
  {
    hide Step;
    assert Steps(m, s1, 1) == Some(s2) by {
      assert Steps(m, s2, 0) == Some(s2);
    }
    StepsCompose(m, s, a, s1, 1, s2);
    n := a + 1;
  }

  lemma HoldsAbove(n: Names, x: string, v: i32, st: State, st': State)
    requires Holds(n, x, v, st) && SameBelow(st, st', st.sp) && st.sp <= st'.sp <= |st'.stack|
    ensures Holds(n, x, v, st')
  {
    hide IndexOf;
  }

  /** Pushing keeps the relation: slots stay below the stack pointer. */
  lemma RelAbove(n: Names, s: Store, st: State, st': State, out: seq<u8>)
    requires Rel(n, s, st)
    requires SameBelow(st, st', st.sp) && st.sp <= st'.sp <= |st'.stack| && st'.out == out
    ensures Rel(n, s.(out := out), st')
  {
    hide Holds, SameBelow;
    forall x | x in s.vars
      ensures Holds(n, x, s.vars[x], st')
    {
      HoldsAbove(n, x, s.vars[x], st, st');
    }
  }

  lemma RelJump(n: Names, s: Store, st: State, pc: nat)
    requires Rel(n, s, st)
    ensures Rel(n, s, st.(pc := pc))
  {
    forall x | x in s.vars
      ensures Holds(n, x, s.vars[x], st.(pc := pc))
    {
      assert Holds(n, x, s.vars[x], st);
    }
  }

  lemma SimPush(l: Linked, st: State, v: i32) returns (k: nat, st': State)
    requires HasCells(l.m.code, st.pc, OpImm(PUSH, v), l.entries)
    requires st.sp < |st.stack|
    ensures Pushed(l.m, st, k, st', 5, v, st.out)
  {
    DecodeImm(l.m.code, st.pc, PUSH, v, l.entries);
    st' := Push(st.(pc := st.pc + 5), v);
    k := Then(l.m, st, 0, st, st');
  }

  lemma SimLoad(l: Linked, n: Names, x: string, v: i32, st: State) returns (k: nat, st': State)
    requires HasCells(l.m.code, st.pc, OpImm(LOADLOCAL, IndexOf(n.locals, x)), l.entries)
    requires Holds(n, x, v, st) && st.sp < |st.stack| < 0x1_0000_0000
    ensures Pushed(l.m, st, k, st', 5, v, st.out)
  {
    DecodeImm(l.m.code, st.pc, LOADLOCAL, IndexOf(n.locals, x), l.entries);
    st' := Push(st.(pc := st.pc + 5), v);
    k := Then(l.m, st, 0, st, st');
  }

  lemma DecodeBin(code: seq<u8>, pc: nat, op: BinOp, entries: seq<(string, nat)>)
    requires HasCells(code, pc, Op(BinByte(op)), entries)
    ensures pc < |code| && Decode(code, pc) == IBin(op)
  {
    DecodeOp(code, pc, BinByte(op), entries);
    assert BinOfByte(BinByte(op)) == Some(op);
  }

  lemma DecodeRet(code: seq<u8>, pc: nat, entries: seq<(string, nat)>)
    requires HasCells(code, pc, Op(RET), entries)
    ensures pc < |code| && Decode(code, pc) == IRet
  {
    DecodeOp(code, pc, RET, entries);
  }

  lemma OpBytes()
    ensures BinByte(BinOp.Add) == ADD && BinByte(BinOp.Eq) == CMPEQ && BinByte(BinOp.Lt) == CMPLT
    ensures BinByte(BinOp.Le) == CMPLE
  {
  }

  /** Two operands on top of the stack become the value of the operator. */
  lemma SimBinOp(l: Linked, op: BinOp, st: State, v: i32) returns (st': State)
    requires HasCells(l.m.code, st.pc, Op(BinByte(op)), l.entries)
    requires 2 <= st.sp <= |st.stack|
    requires BinVal(op, st.stack[st.sp - 2], st.stack[st.sp - 1]) == Some(v)
    ensures Step(l.m, st) == Go(st')
    ensures st' == st.(pc := st.pc + 1, sp := st.sp - 1, stack := st.stack[st.sp - 2 := v])
  {
    DecodeBin(l.m.code, st.pc, op, l.entries);
    st' := st.(pc := st.pc + 1, sp := st.sp - 1, stack := st.stack[st.sp - 2 := v]);
  }

  /** Two values pushed one after the other, and an operator on them. */
  lemma SimOnTwo(l: Linked, op: BinOp, st: State, k1: nat, len1: nat, a: i32, out1: seq<u8>, st1: State,
                 k2: nat, len2: nat, b: i32, out2: seq<u8>, st2: State, v: i32)
    returns (k: nat, st': State)
    requires Pushed(l.m, st, k1, st1, len1, a, out1) && Pushed(l.m, st1, k2, st2, len2, b, out2)
    requires HasCells(l.m.code, st.pc + len1 + len2, Op(BinByte(op)), l.entries) && BinVal(op, a, b) == Some(v)
    ensures Pushed(l.m, st, k, st', len1 + len2 + 1, v, out2)
  {
    hide Step, BinVal, Decode, HasCells, BinByte;
    StepsCompose(l.m, st, k1, st1, k2, st2);
    st' := SimBinOp(l, op, st2, v);
    k := Then(l.m, st, k1 + k2, st2, st');
  }

  lemma SimUnOp(l: Linked, op: UnOp, st: State) returns (st': State)
    requires HasCells(l.m.code, st.pc, Op(UnByte(op)), l.entries) && 1 <= st.sp <= |st.stack|
    ensures Step(l.m, st) == Go(st')
    ensures st' == st.(pc := st.pc + 1, stack := st.stack[st.sp - 1 := UnVal(op, st.stack[st.sp - 1])])
  {
    DecodeOp(l.m.code, st.pc, UnByte(op), l.entries);
    assert Decode(l.m.code, st.pc) == IUn(op);
    st' := st.(pc := st.pc + 1, stack := st.stack[st.sp - 1 := UnVal(op, st.stack[st.sp - 1])]);
  }

  lemma SimCastOp(l: Linked, t: CastTarget, st: State) returns (st': State)
    requires HasCells(l.m.code, st.pc, Op(CastByte(t)), l.entries) && 1 <= st.sp <= |st.stack|
    ensures Step(l.m, st) == Go(st')
    ensures st' == st.(pc := st.pc + 1, stack := st.stack[st.sp - 1 := CastVal(t, st.stack[st.sp - 1])])
  {
    DecodeOp(l.m.code, st.pc, CastByte(t), l.entries);
    assert Decode(l.m.code, st.pc) == ICast(t);
    assert st.stack[st.sp - 1 := st.stack[st.sp - 1]] == st.stack;
    st' := st.(pc := st.pc + 1, stack := st.stack[st.sp - 1 := CastVal(t, st.stack[st.sp - 1])]);
  }

  lemma {:induction false} SimExpr(l: Linked, n: Names, e: Expr, s: Store, st: State, depth: nat, fuel: nat)
    returns (k: nat, st': State)
    requires ExprReady(l, n, e, s, st, depth, fuel)
    ensures ExprDone(l, e, s, st, depth, fuel, k, st')
    decreases fuel, e, 1
  {
    RoomInside(l, st, depth, ExprDepth(e));
    match e
    case IntLit(v) => k, st' := SimPush(l, st, v);
    case BoolLit(b) => k, st' := SimPush(l, st, OfBool(b));
    case Var(x) =>
      var c := FindConst(l.p.consts, x);
      if c.Some? {
        k, st' := SimPush(l, st, c.value);
      } else {
        assert Holds(n, x, s.vars[x], st);
        k, st' := SimLoad(l, n, x, s.vars[x], st);
      }
    case Un(_, _) => k, st' := SimUn(l, n, e, s, st, depth, fuel);
    case Cast(_, _) => k, st' := SimCast(l, n, e, s, st, depth, fuel);
    case Bin(_, _, _) => k, st' := SimBin(l, n, e, s, st, depth, fuel);
    case Call(_, _) => k, st' := SimCall(l, n, e, s, st, depth, fuel);
  }

  lemma {:induction false} SimUn(l: Linked, n: Names, e: Expr, s: Store, st: State, depth: nat, fuel: nat)
    returns (k: nat, st': State)
    requires e.Un? && ExprReady(l, n, e, s, st, depth, fuel)
    ensures ExprDone(l, e, s, st, depth, fuel, k, st')
    decreases fuel, e, 0
  {
    hide Step, Decode, UnVal, HasCells, ValidLinked, Holds, BinByte, UnByte, CastByte;
    SplitCells(l.m.code, st.pc, ExprCells(n, e.arg), Op(UnByte(e.uop)), l.entries);
    var k1, st1 := SimExpr(l, n, e.arg, s, st, depth, fuel);
    st' := SimUnOp(l, e.uop, st1);
    k := Then(l.m, st, k1, st1, st');
  }

  lemma {:induction false} SimCast(l: Linked, n: Names, e: Expr, s: Store, st: State, depth: nat, fuel: nat)
    returns (k: nat, st': State)
    requires e.Cast? && ExprReady(l, n, e, s, st, depth, fuel)
    ensures ExprDone(l, e, s, st, depth, fuel, k, st')
    decreases fuel, e, 0
  {
    hide Step, Decode, CastVal, HasCells, ValidLinked, Holds, BinByte, UnByte, CastByte;
    SplitCells(l.m.code, st.pc, ExprCells(n, e.inner), Op(CastByte(e.target)), l.entries);
    var k1, st1 := SimExpr(l, n, e.inner, s, st, depth, fuel);
    st' := SimCastOp(l, e.target, st1);
    k := Then(l.m, st, k1, st1, st');
  }

  lemma {:induction false} SimBin(l: Linked, n: Names, e: Expr, s: Store, st: State, depth: nat, fuel: nat)
    returns (k: nat, st': State)
    requires e.Bin? && ExprReady(l, n, e, s, st, depth, fuel)
    ensures ExprDone(l, e, s, st, depth, fuel, k, st')
    decreases fuel, e, 0
  {
    hide Step, BinVal, Decode, HasCells, ValidLinked, Holds, BinByte, UnByte, CastByte;
    var a, op, b := e.left, e.bop, e.right;
    SplitCells(l.m.code, st.pc, ExprCells(n, a) + ExprCells(n, b), Op(BinByte(op)), l.entries);
    SplitCells(l.m.code, st.pc, ExprCells(n, a), ExprCells(n, b), l.entries);
    var ra := EvalExpr(l.p, a, s, depth, fuel);
    var k1, st1 := SimExpr(l, n, a, s, st, depth, fuel);
    RelAbove(n, s, st, st1, ra.out);
    var k2, st2 := SimExpr(l, n, b, s.(out := ra.out), st1, depth, fuel);
    var rb := EvalExpr(l.p, b, s.(out := ra.out), depth, fuel);
    k, st' := SimOnTwo(l, op, st, k1, ExprLen(a), ra.v, ra.out, st1, k2, ExprLen(b), rb.v, rb.out, st2,
                       EvalExpr(l.p, e, s, depth, fuel).v);
  }

  /** The values of a call's arguments, the first one deepest. */
  ghost predicate ArgsPushed(m: Machine, st: State, k: nat, st': State, len: nat, vs: seq<i32>, out: seq<u8>) {
    && Steps(m, st, k) == Some(st')
    && SameBelow(st, st', st.sp)
    && st'.pc == st.pc + len
    && st'.sp == st.sp + |vs| <= |st'.stack|
    && (forall i :: 0 <= i < |vs| ==> st'.stack[st.sp + i] == vs[i])
    && st'.out == out
  }

  lemma {:induction false} SimArgs(l: Linked, n: Names, args: seq<Expr>, s: Store, st: State, depth: nat, fuel: nat)
    returns (k: nat, st': State)
    requires Env(l, n)
    requires (forall i :: 0 <= i < |args| ==> WfExpr(l.p, args[i])) && CoversArgs(n, args)
    requires HasCells(l.m.code, st.pc, ArgsCells(n, args), l.entries)
    requires Rel(n, s, st) && Room(l, st, depth, ArgsDepth(args))
    requires EvalArgs(l.p, args, s, depth, fuel).Values?
    ensures var r := EvalArgs(l.p, args, s, depth, fuel);
            ArgsPushed(l.m, st, k, st', ArgsLen(args), r.vs, r.out)
    decreases fuel, args, 0
  {
    hide Step, HasCells, ExprCells, ExprLen, EvalExpr, ExprDepth, CoversExpr, WfExpr, ValidLinked;
    RoomInside(l, st, depth, ArgsDepth(args));
    if args == [] {
      k, st' := 0, st;
    } else {
      var j := |args| - 1;
      SplitCells(l.m.code, st.pc, ArgsCells(n, args[..j]), ExprCells(n, args[j]), l.entries);
      var r1 := EvalArgs(l.p, args[..j], s, depth, fuel);
      var k1, st1 := SimArgs(l, n, args[..j], s, st, depth, fuel);
      RelAbove(n, s, st, st1, r1.out);
      var k2, st2 := SimExpr(l, n, args[j], s.(out := r1.out), st1, depth, fuel);
      StepsCompose(l.m, st, k1, st1, k2, st2);
      k, st' := k1 + k2, st2;
    }
  }

  lemma {:induction false} BindHolds(params: seq<string>, vs: seq<i32>, x: string)
    requires Distinct(params) && |params| == |vs|
    requires x in Bind(params, vs)
    ensures exists i :: 0 <= i < |params| && params[i] == x && Bind(params, vs)[x] == vs[i]
  {
    var k := |params| - 1;
    if params != [] && x != params[k] {
      BindHolds(params[..k], vs[..k], x);
      var i :| 0 <= i < k && params[..k][i] == x && Bind(params[..k], vs[..k])[x] == vs[..k][i];
      assert params[i] == x;
    }
  }

  /** A callee's frame starts at its arguments, which are its first slots. */
  lemma FrameRel(slots: seq<string>, n: Names, params: seq<string>, vs: seq<i32>, st: State)
    requires n.locals == slots && params <= slots && Distinct(params) && |params| == |vs|
    requires st.fp + |vs| == st.sp <= |st.stack|
    requires forall i :: 0 <= i < |vs| ==> st.stack[st.fp + i] == vs[i]
    ensures Rel(n, Store(Bind(params, vs), st.out), st)
  {
    forall x | x in Bind(params, vs)
      ensures Holds(n, x, Bind(params, vs)[x], st)
    {
      BindHolds(params, vs, x);
      var i :| 0 <= i < |params| && params[i] == x && Bind(params, vs)[x] == vs[i];
      assert slots[i] == x;
      var j := IndexOf(slots, x);
      assert forall k :: 0 <= k < i ==> slots[k] == params[k];
      assert j == i;
    }
  }

  /** The machine after a call instruction: a new frame on top of the arguments. */
  lemma SimEnter(l: Linked, f: string, st: State, st1: State, vs: seq<i32>, len: nat)
    returns (st': State)
    requires ValidLinked(l) && FindFn(l.p.fns, f).Some?
    requires HasCells(l.m.code, st1.pc, OpRef(CALL, FnEntry(f)), l.entries)
    requires SameBelow(st, st1, st.sp) && |vs| < 0x8000_0000
    requires st1.sp == st.sp + |vs| + 1 <= |st1.stack|
    requires forall i :: 0 <= i < |vs| ==> st1.stack[st.sp + i] == vs[i]
    requires st1.stack[st.sp + |vs|] == |vs|
    requires |st.frames| < VM_DEPTH
    ensures Step(l.m, st1) == Go(st')
    ensures st' == st1.(sp := st.sp + |vs|, fp := st.sp, pc := EntryAddr(l.entries, f),
                        frames := st.frames + [Frame(st1.pc + 5, st.fp)])
  {
    hide FnNames, StmtsCells, CoversStmts, WfFn, FrameNeed, SlotsOf, Le32, FindFn;
    assert FnLinked(l, f);
    var a := EntryAddr(l.entries, f);
    DecodeRef(l.m.code, st1.pc, CALL, FnEntry(f), a, l.entries);
    st' := st1.(sp := st.sp + |vs|, fp := st.sp, pc := a, frames := st.frames + [Frame(st1.pc + 5, st.fp)]);
  }

  /** A function body has run up to its `ret`, with the result on top of the stack. */
  ghost predicate Returning(m: Machine, st: State, k: nat, st': State, v: i32, out: seq<u8>) {
    && Steps(m, st, k) == Some(st')
    && SameBelow(st, st', st.fp)
    && st'.pc < |m.code| && Decode(m.code, st'.pc) == IRet
    && st.fp < st'.sp <= |st'.stack| && st'.stack[st'.sp - 1] == v
    && st'.out == out
  }

  /** `ret` gives the caller back its frame with the result in place of the arguments. */
  lemma SimLeave(m: Machine, st: State, v: i32) returns (st': State)
    requires st.pc < |m.code| && Decode(m.code, st.pc) == IRet
    requires st.fp < st.sp <= |st.stack| && st.stack[st.sp - 1] == v
    requires st.frames != []
    ensures Step(m, st) == Go(st')
    ensures var fr := st.frames[|st.frames| - 1];
            st' == st.(stack := st.stack[st.fp := v], sp := st.fp + 1, fp := fr.fp, pc := fr.ret,
                       frames := st.frames[..|st.frames| - 1])
  {
    st' := Step(m, st).st;
  }

  /** The state in which a callee starts: its frame begins at the arguments. */
  ghost predicate Entered(l: Linked, f: string, st: State, st': State, vs: seq<i32>, back: nat, out: seq<u8>) {
    && |st.stack| == |st'.stack|
    && st'.fp == st.sp && st'.sp == st.sp + |vs| <= |st'.stack|
    && (forall i :: 0 <= i < st.sp ==> st.stack[i] == st'.stack[i])
    && (forall i :: 0 <= i < |vs| ==> st'.stack[st.sp + i] == vs[i])
    && st'.pc == EntryAddr(l.entries, f)
    && st'.frames == st.frames + [Frame(back, st.fp)]
    && st'.out == out
  }

  lemma {:induction false} SimCallEnter(l: Linked, n: Names, e: Expr, s: Store, st: State, depth: nat, fuel: nat)
    returns (k: nat, st': State)
    requires e.Call? && ExprAt(l, n, e, s, st, depth) && depth > 0 && EvalArgs(l.p, e.args, s, depth, fuel).Values?
    ensures var ra := EvalArgs(l.p, e.args, s, depth, fuel);
            && Steps(l.m, st, k) == Some(st')
            && Entered(l, e.fname, st, st', ra.vs, st.pc + ExprLen(e), ra.out)
    decreases fuel, e.args, 1
  {
    hide Step, Decode, HasCells, Holds, ValidLinked, StackNeed, CallFn, EvalExpr, BinByte, UnByte, CastByte, Le32;
    var f, args := e.fname, e.args;
    RoomInside(l, st, depth, ExprDepth(e));
    SplitCells(l.m.code, st.pc, ArgsCells(n, args) + OpImm(PUSH, |args|), OpRef(CALL, FnEntry(f)), l.entries);
    SplitCells(l.m.code, st.pc, ArgsCells(n, args), OpImm(PUSH, |args|), l.entries);
    var ra := EvalArgs(l.p, args, s, depth, fuel);
    var k1, st1 := SimArgs(l, n, args, s, st, depth, fuel);
    var k2, st2 := SimPush(l, st1, |args|);
    StepsCompose(l.m, st, k1, st1, k2, st2);
    st' := SimEnter(l, f, st, st2, ra.vs, |args|);
    k := Then(l.m, st, k1 + k2, st2, st');
  }

  lemma {:induction false} SimCall(l: Linked, n: Names, e: Expr, s: Store, st: State, depth: nat, fuel: nat)
    returns (k: nat, st': State)
    requires e.Call? && ExprReady(l, n, e, s, st, depth, fuel)
    ensures ExprDone(l, e, s, st, depth, fuel, k, st')
    decreases fuel, e, 0
  {
    hide Step, Decode, HasCells, ValidLinked, Holds, StmtsCells, FnNames, CoversStmts, CallFn, Bind;
    var f := e.fname;
    var ra := EvalArgs(l.p, e.args, s, depth, fuel);
    var fd := FindFn(l.p.fns, f).value;
    LinkedFn(l, f);
    var k1, st1 := SimCallEnter(l, n, e, s, st, depth, fuel);
    FrameRel(SlotsOf(l.p.consts, fd), NamesOf(l, fd), fd.params, ra.vs, st1);
    assert StackNeed(l.k, depth) == l.k + StackNeed(l.k, depth - 1);
    var k2, st2 := SimFn(l, f, ra.vs, st1, depth - 1, fuel - 1);
    StepsCompose(l.m, st, k1, st1, k2, st2);
    st' := SimLeave(l.m, st2, EvalExpr(l.p, e, s, depth, fuel).v);
    k := Then(l.m, st, k1 + k2, st2, st');
    assert st1.frames[..|st1.frames| - 1] == st.frames;
  }

  lemma {:induction false} SimFn(l: Linked, f: string, vs: seq<i32>, st: State, depth: nat, fuel: nat)
    returns (k: nat, st': State)
    requires ValidLinked(l) && FindFn(l.p.fns, f).Some?
    requires var fd := FindFn(l.p.fns, f).value;
             && |vs| == |fd.params|
             && Rel(NamesOf(l, fd), Store(Bind(fd.params, vs), st.out), st)
             && CallFn(l.p, fd, vs, st.out, depth, fuel).Value?
    requires st.pc == EntryAddr(l.entries, f) && st.sp == st.fp + |vs|
    requires st.fp + StackNeed(l.k, depth) <= |st.stack| < 0x8000_0000 && |st.frames| + depth <= VM_DEPTH
    ensures var r := CallFn(l.p, FindFn(l.p.fns, f).value, vs, st.out, depth, fuel);
            Returning(l.m, st, k, st', r.v, r.out)
    decreases fuel, FindFn(l.p.fns, f).value.body, 3
  {
    hide Step, HasCells, StmtsCells, StmtsLen, ExecStmts, WfStmts, CoversStmts, StmtsDepth, Bind, FnNames;
    assert FnLinked(l, f);
    var fd := FindFn(l.p.fns, f).value;
    var n := NamesOf(l, fd);
    var body := StmtsCells(n, fd.body, st.pc, At(0), At(0));
    SplitCells(l.m.code, st.pc, body + OpImm(PUSH, 0), Op(RET), l.entries);
    SplitCells(l.m.code, st.pc, body, OpImm(PUSH, 0), l.entries);
    assert StackNeed(l.k, depth) >= l.k;
    var s := Store(Bind(fd.params, vs), st.out);
    var r := ExecStmts(l.p, fd.body, s, depth, fuel);
    var k1, st1 := SimStmts(l, n, fd.body, s, st, depth, fuel, 0, 0, false);
    if r.flow.Returned? {
      k, st' := k1, st1;
    } else {
      var k2;
      k2, st' := SimPush(l, st1, 0);
      StepsCompose(l.m, st, k1, st1, k2, st');
      k := k1 + k2;
      DecodeRet(l.m.code, st'.pc, l.entries);
    }
  }

  /** Between statements only locals are live: the stack ends inside the frame's slots. */
  ghost predicate Level(n: Names, st: State) {
    st.fp <= st.sp <= st.fp + |n.locals| <= |st.stack|
  }

  /** Room in the frame for every slot and for `need` temporaries above them. */
  ghost predicate FrameRoom(l: Linked, n: Names, st: State, depth: nat, need: nat) {
    && Level(n, st)
    && |n.locals| + need <= l.k
    && st.fp + StackNeed(l.k, depth) <= |st.stack| < 0x8000_0000
    && |st.frames| + depth <= VM_DEPTH
  }

  lemma FrameRoomGivesRoom(l: Linked, n: Names, st: State, depth: nat, need: nat)
    requires FrameRoom(l, n, st, depth, need)
    ensures Room(l, st, depth, need) && st.fp + |n.locals| + need <= |st.stack|
  {
    assert StackNeed(l.k, depth) >= l.k;
  }

  /** Where a finished statement leaves the machine. */
  ghost predicate StmtDone(l: Linked, n: Names, st: State, r: StmtResult, next: nat, brk: nat, cont: nat,
                           k: nat, st': State) {
    && r.End?
    && Steps(l.m, st, k) == Some(st')
    && match r.flow
       case Returned(v) => Returning(l.m, st, k, st', v, r.st.out)
       case Next => Settled(n, st, r.st, next, st')
       case Broke => Settled(n, st, r.st, brk, st')
       case Continued => Settled(n, st, r.st, cont, st')
  }

  ghost predicate Settled(n: Names, st: State, s: Store, pc: nat, st': State) {
    SameBelow(st, st', st.fp) && Level(n, st') && Rel(n, s, st') && st'.pc == pc
  }

  /** The machine is about to run the code of a statement. */
  ghost predicate StmtAt(l: Linked, n: Names, stmt: Stmt, s: Store, st: State, depth: nat,
                         brk: nat, cont: nat, inLoop: bool) {
    && Env(l, n)
    && WfStmt(l.p, stmt, inLoop) && CoversStmt(n, stmt)
    && HasCells(l.m.code, st.pc, StmtCells(n, stmt, st.pc, At(brk), At(cont)), l.entries)
    && brk < 0x1_0000_0000 && cont < 0x1_0000_0000
    && Rel(n, s, st) && FrameRoom(l, n, st, depth, StmtDepth(stmt))
  }

  ghost predicate StmtReady(l: Linked, n: Names, stmt: Stmt, s: Store, st: State, depth: nat, fuel: nat,
                            brk: nat, cont: nat, inLoop: bool) {
    StmtAt(l, n, stmt, s, st, depth, brk, cont, inLoop) && ExecStmt(l.p, stmt, s, depth, fuel).End?
  }

  lemma Chain(l: Linked, n: Names, st: State, k1: nat, st1: State, r: StmtResult,
              next: nat, brk: nat, cont: nat, k2: nat, st2: State)
    returns (k: nat)
    requires Steps(l.m, st, k1) == Some(st1) && SameBelow(st, st1, st.fp)
    requires StmtDone(l, n, st1, r, next, brk, cont, k2, st2)
    ensures StmtDone(l, n, st, r, next, brk, cont, k, st2)
  {
    hide Step, Decode;
    StepsCompose(l.m, st, k1, st1, k2, st2);
    k := k1 + k2;
  }

  lemma {:induction false} SimStmts(l: Linked, n: Names, ss: seq<Stmt>, s: Store, st: State, depth: nat, fuel: nat,
                                    brk: nat, cont: nat, inLoop: bool)
    returns (k: nat, st': State)
    requires Env(l, n)
    requires WfStmts(l.p, ss, inLoop) && CoversStmts(n, ss)
    requires HasCells(l.m.code, st.pc, StmtsCells(n, ss, st.pc, At(brk), At(cont)), l.entries)
    requires brk < 0x1_0000_0000 && cont < 0x1_0000_0000
    requires Rel(n, s, st) && FrameRoom(l, n, st, depth, StmtsDepth(ss))
    requires ExecStmts(l.p, ss, s, depth, fuel).End?
    ensures StmtDone(l, n, st, ExecStmts(l.p, ss, s, depth, fuel), st.pc + StmtsLen(ss), brk, cont, k, st')
    decreases fuel, ss, 2
  {
    hide Step, Decode, ExecStmt, StmtCells, StmtLen, StmtDepth, CoversStmt, WfStmt, HasCells, Rel, FindFn, ValidLinked;
    if ss == [] {
      k, st' := 0, st;
    } else {
      var j := |ss| - 1;
      var a, b := StmtsCells(n, ss[..j], st.pc, At(brk), At(cont)),
                  StmtCells(n, ss[j], st.pc + StmtsLen(ss[..j]), At(brk), At(cont));
      SplitCells(l.m.code, st.pc, a, b, l.entries);
      var r1 := ExecStmts(l.p, ss[..j], s, depth, fuel);
      var k1, st1 := SimStmts(l, n, ss[..j], s, st, depth, fuel, brk, cont, inLoop);
      if r1.flow.Next? {
        var k2;
        k2, st' := SimStmt(l, n, ss[j], r1.st, st1, depth, fuel, brk, cont, inLoop);
        k := Chain(l, n, st, k1, st1, ExecStmt(l.p, ss[j], r1.st, depth, fuel),
                   st.pc + StmtsLen(ss), brk, cont, k2, st');
      } else {
        k, st' := k1, st1;
      }
    }
  }

  lemma {:induction false} SimStmt(l: Linked, n: Names, stmt: Stmt, s: Store, st: State, depth: nat, fuel: nat,
                                   brk: nat, cont: nat, inLoop: bool)
    returns (k: nat, st': State)
    requires StmtReady(l, n, stmt, s, st, depth, fuel, brk, cont, inLoop)
    ensures StmtDone(l, n, st, ExecStmt(l.p, stmt, s, depth, fuel), st.pc + StmtLen(stmt), brk, cont, k, st')
    decreases fuel, stmt, 2
  {
    hide Step, Decode, HasCells, Rel, StmtDone, ExecStmt, StmtLen, StmtReady;
    match stmt
    case Let(_, _) => k, st' := SimLet(l, n, stmt, s, st, depth, fuel, brk, cont, inLoop);
    case Assign(_, _) => k, st' := SimLet(l, n, stmt, s, st, depth, fuel, brk, cont, inLoop);
    case CompoundAssign(_, _, _) => k, st' := SimCompound(l, n, stmt, s, st, depth, fuel, brk, cont, inLoop);
    case If(_, _, _) => k, st' := SimIf(l, n, stmt, s, st, depth, fuel, brk, cont, inLoop);
    case While(_, _) => k, st' := SimWhile(l, n, stmt, s, st, depth, fuel, brk, cont, inLoop);
    case Loop(_) => k, st' := SimLoop(l, n, stmt, s, st, depth, fuel, brk, cont, inLoop);
    case For(_, _, _, _, _, _) => k, st' := SimFor(l, n, stmt, s, st, depth, fuel, brk, cont, inLoop);
    case Match(_, _) => k, st' := SimMatch(l, n, stmt, s, st, depth, fuel, brk, cont, inLoop);
    case Break => k, st' := SimBreak(l, n, stmt, s, st, depth, fuel, brk, cont, inLoop);
    case Continue => k, st' := SimBreak(l, n, stmt, s, st, depth, fuel, brk, cont, inLoop);
    case Return(_) => k, st' := SimReturn(l, n, stmt, s, st, depth, fuel, brk, cont, inLoop);
    case Print(_) => k, st' := SimPrint(l, n, stmt, s, st, depth, fuel, brk, cont, inLoop);
    case ExprStmt(_) => k, st' := SimExprStmt(l, n, stmt, s, st, depth, fuel, brk, cont, inLoop);
  }

  lemma Split4(l: Linked, pc: nat, a: seq<Cell>, b: seq<Cell>, c: seq<Cell>, d: seq<Cell>)
    requires HasCells(l.m.code, pc, a + b + c + d, l.entries)
    ensures HasCells(l.m.code, pc, a, l.entries) && HasCells(l.m.code, pc + |a|, b, l.entries)
    ensures HasCells(l.m.code, pc + |a| + |b|, c, l.entries)
    ensures HasCells(l.m.code, pc + |a| + |b| + |c|, d, l.entries)
  {
    hide HasCells;
    SplitCells(l.m.code, pc, a + b + c, d, l.entries);
    SplitCells(l.m.code, pc, a + b, c, l.entries);
    SplitCells(l.m.code, pc, a, b, l.entries);
  }

  lemma Split5(l: Linked, pc: nat, a: seq<Cell>, b: seq<Cell>, c: seq<Cell>, d: seq<Cell>, e: seq<Cell>)
    requires HasCells(l.m.code, pc, a + b + c + d + e, l.entries)
    ensures HasCells(l.m.code, pc, a, l.entries) && HasCells(l.m.code, pc + |a|, b, l.entries)
    ensures HasCells(l.m.code, pc + |a| + |b|, c, l.entries)
    ensures HasCells(l.m.code, pc + |a| + |b| + |c|, d, l.entries)
    ensures HasCells(l.m.code, pc + |a| + |b| + |c| + |d|, e, l.entries)
  {
    hide HasCells;
    SplitCells(l.m.code, pc, a + b + c + d, e, l.entries);
    Split4(l, pc, a, b, c, d);
  }

  lemma SimJmp(l: Linked, st: State, a: nat) returns (st': State)
    requires HasCells(l.m.code, st.pc, OpRef(JMP, At(a)), l.entries) && a < 0x1_0000_0000
    ensures Step(l.m, st) == Go(st') && st' == st.(pc := a)
  {
    DecodeRef(l.m.code, st.pc, JMP, At(a), a, l.entries);
    st' := st.(pc := a);
  }

  lemma SimJz(l: Linked, st: State, a: nat) returns (st': State)
    requires HasCells(l.m.code, st.pc, OpRef(JZ, At(a)), l.entries) && a < 0x1_0000_0000
    requires 1 <= st.sp <= |st.stack|
    ensures Step(l.m, st) == Go(st')
    ensures st' == st.(sp := st.sp - 1, pc := if st.stack[st.sp - 1] == 0 then a else st.pc + 5)
  {
    DecodeRef(l.m.code, st.pc, JZ, At(a), a, l.entries);
    st' := st.(sp := st.sp - 1, pc := if st.stack[st.sp - 1] == 0 then a else st.pc + 5);
  }

  lemma SimPop(l: Linked, st: State) returns (st': State)
    requires HasCells(l.m.code, st.pc, Op(POP), l.entries) && st.sp >= 1
    ensures Step(l.m, st) == Go(st') && st' == st.(sp := st.sp - 1, pc := st.pc + 1)
  {
    DecodeOp(l.m.code, st.pc, POP, l.entries);
    assert Decode(l.m.code, st.pc) == IPop;
    st' := st.(sp := st.sp - 1, pc := st.pc + 1);
  }

  /** Storing the value on top of the stack into a variable's slot; the slot may lie above it. */
  lemma SimStore(l: Linked, n: Names, x: string, v: i32, s: Store, st: State, st1: State) returns (st': State)
    requires HasCells(l.m.code, st1.pc, OpImm(STORELOCAL, IndexOf(n.locals, x)), l.entries)
    requires x in n.locals && Level(n, st) && |st.stack| < 0x8000_0000
    requires Rel(n, s, st) && SameBelow(st, st1, st.sp)
    requires st1.sp == st.sp + 1 <= |st1.stack| && st1.stack[st.sp] == v
    ensures Step(l.m, st1) == Go(st')
    ensures Settled(n, st, Store(s.vars[x := v], st1.out), st1.pc + 5, st')
  {
    hide HasCells, Holds, IndexOf;
    st' := StoredState(l, IndexOf(n.locals, x), st1);
    var s' := Store(s.vars[x := v], st1.out);
    forall y | y in s'.vars
      ensures Holds(n, y, s'.vars[y], st')
    {
      if y == x {
        StoredHolds(n, x, v, st', st.fp + IndexOf(n.locals, x));
      } else {
        assert Holds(n, y, s.vars[y], st);
        OtherHolds(n, x, y, s.vars[y], st, st1, st');
      }
    }
  }

  lemma StoredState(l: Linked, i: nat, st: State) returns (st': State)
    requires HasCells(l.m.code, st.pc, OpImm(STORELOCAL, i), l.entries)
    requires st.sp >= 1 && st.sp <= |st.stack| < 0x8000_0000 && st.fp + i < |st.stack|
    ensures Step(l.m, st) == Go(st')
    ensures var j := st.fp + i;
            st' == st.(pc := st.pc + 5, stack := st.stack[j := st.stack[st.sp - 1]],
                       sp := if j >= st.sp - 1 then j + 1 else st.sp - 1)
  {
    hide HasCells;
    DecodeImm(l.m.code, st.pc, STORELOCAL, i, l.entries);
    st' := Step(l.m, st).st;
  }

  lemma StoredHolds(n: Names, x: string, v: i32, st: State, j: nat)
    requires x in n.locals && j == st.fp + IndexOf(n.locals, x) < st.sp <= |st.stack| && st.stack[j] == v
    ensures Holds(n, x, v, st)
  {
  }

  /** A variable keeps its value when another one is stored. */
  lemma OtherHolds(n: Names, x: string, y: string, v: i32, st: State, st1: State, st': State)
    requires Holds(n, y, v, st) && SameBelow(st, st1, st.sp) && x in n.locals && x != y
    requires st'.fp == st.fp && st.sp <= st'.sp <= |st'.stack| == |st1.stack|
    requires forall j :: 0 <= j < |st'.stack| && j != st.fp + IndexOf(n.locals, x) ==> st'.stack[j] == st1.stack[j]
    ensures Holds(n, y, v, st')
  {
  }

  lemma {:induction false} SimLet(l: Linked, n: Names, stmt: Stmt, s: Store, st: State, depth: nat, fuel: nat,
                                  brk: nat, cont: nat, inLoop: bool)
    returns (k: nat, st': State)
    requires stmt.Let? || stmt.Assign?
    requires StmtReady(l, n, stmt, s, st, depth, fuel, brk, cont, inLoop)
    ensures StmtDone(l, n, st, ExecStmt(l.p, stmt, s, depth, fuel), st.pc + StmtLen(stmt), brk, cont, k, st')
    decreases fuel, stmt, 1
  {
    hide Step, Decode, HasCells, ValidLinked, Holds, BinByte, UnByte, CastByte;
    FrameRoomGivesRoom(l, n, st, depth, StmtDepth(stmt));
    var e := stmt.init;
    SplitCells(l.m.code, st.pc, ExprCells(n, e), OpImm(STORELOCAL, IndexOf(n.locals, stmt.name)), l.entries);
    var k1, st1 := SimExpr(l, n, e, s, st, depth, fuel);
    st' := SimStore(l, n, stmt.name, EvalExpr(l.p, e, s, depth, fuel).v, s, st, st1);
    k := Then(l.m, st, k1, st1, st');
  }

  lemma {:induction false} SimCompound(l: Linked, n: Names, stmt: Stmt, s: Store, st: State, depth: nat, fuel: nat,
                                       brk: nat, cont: nat, inLoop: bool)
    returns (k: nat, st': State)
    requires stmt.CompoundAssign?
    requires StmtReady(l, n, stmt, s, st, depth, fuel, brk, cont, inLoop)
    ensures StmtDone(l, n, st, ExecStmt(l.p, stmt, s, depth, fuel), st.pc + StmtLen(stmt), brk, cont, k, st')
    decreases fuel, stmt, 1
  {
    hide Step, Decode, BinVal, CompoundOp, HasCells, ExprCells, EvalExpr, ExprLen, ValidLinked, Holds, BinByte,
         UnByte, CastByte;
    FrameRoomGivesRoom(l, n, st, depth, StmtDepth(stmt));
    var x, e, op := stmt.name, stmt.rhs, CompoundOp(stmt.cop);
    var i := IndexOf(n.locals, x);
    Split4(l, st.pc, OpImm(LOADLOCAL, i), ExprCells(n, e), Op(BinByte(op)), OpImm(STORELOCAL, i));
    assert Holds(n, x, s.vars[x], st);
    var k1, st1 := SimLoad(l, n, x, s.vars[x], st);
    RelAbove(n, s, st, st1, st.out);
    var k2, st2 := SimExpr(l, n, e, s, st1, depth, fuel);
    StepsCompose(l.m, st, k1, st1, k2, st2);
    var r := EvalExpr(l.p, e, s, depth, fuel);
    var v := BinVal(op, s.vars[x], r.v).value;
    var st3 := SimBinOp(l, op, st2, v);
    var k3 := Then(l.m, st, k1 + k2, st2, st3);
    st' := SimStore(l, n, x, v, s, st, st3);
    k := Then(l.m, st, k3, st3, st');
  }

  /** A condition followed by `jz a`: the machine is past the jump or at a, with nothing left over. */
  lemma {:induction false} SimCond(l: Linked, n: Names, c: Expr, s: Store, st: State, depth: nat, fuel: nat, a: nat)
    returns (k: nat, st': State)
    requires ExprReady(l, n, c, s, st, depth, fuel) && FrameRoom(l, n, st, depth, ExprDepth(c))
    requires HasCells(l.m.code, st.pc + ExprLen(c), OpRef(JZ, At(a)), l.entries) && a < 0x1_0000_0000
    ensures var r := EvalExpr(l.p, c, s, depth, fuel);
            && Steps(l.m, st, k) == Some(st')
            && Settled(n, st, s.(out := r.out), if r.v == 0 then a else st.pc + ExprLen(c) + 5, st')
    decreases fuel, c, 2
  {
    hide Step, Decode, HasCells, ValidLinked, Holds, BinByte, UnByte, CastByte;
    var r := EvalExpr(l.p, c, s, depth, fuel);
    var k1, st1 := SimExpr(l, n, c, s, st, depth, fuel);
    st' := SimJz(l, st1, a);
    k := Then(l.m, st, k1, st1, st');
    RelAbove(n, s, st, st', r.out);
  }

  lemma {:induction false} SimIf(l: Linked, n: Names, stmt: Stmt, s: Store, st: State, depth: nat, fuel: nat,
                                 brk: nat, cont: nat, inLoop: bool)
    returns (k: nat, st': State)
    requires stmt.If?
    requires StmtReady(l, n, stmt, s, st, depth, fuel, brk, cont, inLoop)
    ensures StmtDone(l, n, st, ExecStmt(l.p, stmt, s, depth, fuel), st.pc + StmtLen(stmt), brk, cont, k, st')
    decreases fuel, stmt, 1
  {
    hide Step, Decode, Rel, ExprCells, StmtsCells, EvalExpr, ExecStmts, ExprLen, StmtsLen, WfExpr, WfStmts,
         CoversExpr, CoversStmts;
    FrameRoomGivesRoom(l, n, st, depth, StmtDepth(stmt));
    var c, t, e := stmt.cond, stmt.thn, stmt.els;
    var tbase := st.pc + ExprLen(c) + 5;
    var ebase := tbase + StmtsLen(t) + 5;
    var end := ebase + StmtsLen(e);
    Split5(l, st.pc, ExprCells(n, c), OpRef(JZ, At(ebase)), StmtsCells(n, t, tbase, At(brk), At(cont)),
           OpRef(JMP, At(end)), StmtsCells(n, e, ebase, At(brk), At(cont)));
    assert ebase < 0x1_0000_0000 && end < 0x1_0000_0000;
    var r := EvalExpr(l.p, c, s, depth, fuel);
    var s1 := s.(out := r.out);
    var k1, st1 := SimCond(l, n, c, s, st, depth, fuel, ebase);
    if r.v != 0 {
      var k2, st2 := SimStmts(l, n, t, s1, st1, depth, fuel, brk, cont, inLoop);
      var rt := ExecStmts(l.p, t, s1, depth, fuel);
      k := Chain(l, n, st, k1, st1, rt, tbase + StmtsLen(t), brk, cont, k2, st2);
      st' := st2;
      if rt.flow.Next? {
        st' := SimJmp(l, st2, end);
        k := Then(l.m, st, k, st2, st');
        RelJump(n, rt.st, st2, end);
      }
    } else {
      var k2;
      k2, st' := SimStmts(l, n, e, s1, st1, depth, fuel, brk, cont, inLoop);
      k := Chain(l, n, st, k1, st1, ExecStmts(l.p, e, s1, depth, fuel), end, brk, cont, k2, st');
    }
  }

  /** One round of a loop body that ends in a jump back to `top`: `continue` takes the same jump. */
  lemma {:induction false} SimRound(l: Linked, n: Names, body: seq<Stmt>, s: Store, st: State, depth: nat, fuel: nat,
                                    top: nat, after: nat)
    returns (k: nat, st': State)
    requires Env(l, n) && WfStmts(l.p, body, true) && CoversStmts(n, body)
    requires var next := st.pc + StmtsLen(body);
             && HasCells(l.m.code, st.pc, StmtsCells(n, body, st.pc, At(after), At(next)), l.entries)
             && HasCells(l.m.code, next, OpRef(JMP, At(top)), l.entries)
    requires top < 0x1_0000_0000 && after < 0x1_0000_0000
    requires Rel(n, s, st) && FrameRoom(l, n, st, depth, StmtsDepth(body))
    requires ExecStmts(l.p, body, s, depth, fuel).End?
    ensures StmtDone(l, n, st, ExecStmts(l.p, body, s, depth, fuel), top, after, top, k, st')
    ensures var flow := ExecStmts(l.p, body, s, depth, fuel).flow; flow.Next? || flow.Continued? ==> k > 0
    decreases fuel, body, 3
  {
    hide Step, Decode, Rel, StmtsCells, ExecStmts, StmtsLen, WfStmts, CoversStmts;
    var next := st.pc + StmtsLen(body);
    assert next < 0x1_0000_0000;
    var r := ExecStmts(l.p, body, s, depth, fuel);
    k, st' := SimStmts(l, n, body, s, st, depth, fuel, after, next, true);
    if r.flow.Next? || r.flow.Continued? {
      var st1 := st';
      st' := SimJmp(l, st1, top);
      k := Then(l.m, st, k, st1, st');
      RelJump(n, r.st, st1, top);
    }
  }

  lemma {:induction false} SimWhile(l: Linked, n: Names, stmt: Stmt, s: Store, st: State, depth: nat, fuel: nat,
                                    brk: nat, cont: nat, inLoop: bool)
    returns (k: nat, st': State)
    requires stmt.While?
    requires StmtReady(l, n, stmt, s, st, depth, fuel, brk, cont, inLoop)
    ensures StmtDone(l, n, st, ExecStmt(l.p, stmt, s, depth, fuel), st.pc + StmtLen(stmt), brk, cont, k, st')
    decreases fuel, stmt, 1
  {
    hide Step, Decode, Rel, ExprCells, StmtsCells, EvalExpr, ExecStmts, ExprLen, StmtsLen, WfExpr, WfStmts,
         CoversExpr, CoversStmts;
    FrameRoomGivesRoom(l, n, st, depth, StmtDepth(stmt));
    var c, b := stmt.cond, stmt.body;
    var bbase := st.pc + ExprLen(c) + 5;
    var next := bbase + StmtsLen(b);
    Split4(l, st.pc, ExprCells(n, c), OpRef(JZ, At(next + 5)), StmtsCells(n, b, bbase, At(next + 5), At(next)),
           OpRef(JMP, At(st.pc)));
    assert next + 5 < 0x1_0000_0000 && st.pc < 0x1_0000_0000;
    var r := EvalExpr(l.p, c, s, depth, fuel);
    var s1 := s.(out := r.out);
    var k1, st1 := SimCond(l, n, c, s, st, depth, fuel, next + 5);
    k, st' := k1, st1;
    if r.v != 0 {
      var rb := ExecStmts(l.p, b, s1, depth, fuel);
      var k2, st2 := SimRound(l, n, b, s1, st1, depth, fuel, st.pc, next + 5);
      k := Chain(l, n, st, k1, st1, rb, st.pc, next + 5, st.pc, k2, st2);
      st' := st2;
      if rb.flow.Next? || rb.flow.Continued? {
        var k3;
        k3, st' := SimWhile(l, n, stmt, rb.st, st2, depth, fuel - 1, brk, cont, inLoop);
        k := Chain(l, n, st, k, st2, ExecStmt(l.p, stmt, rb.st, depth, fuel - 1), next + 5, brk, cont, k3, st');
      }
    }
  }

  lemma {:induction false} SimLoop(l: Linked, n: Names, stmt: Stmt, s: Store, st: State, depth: nat, fuel: nat,
                                   brk: nat, cont: nat, inLoop: bool)
    returns (k: nat, st': State)
    requires stmt.Loop?
    requires StmtReady(l, n, stmt, s, st, depth, fuel, brk, cont, inLoop)
    ensures StmtDone(l, n, st, ExecStmt(l.p, stmt, s, depth, fuel), st.pc + StmtLen(stmt), brk, cont, k, st')
    decreases fuel, stmt, 1
  {
    hide Step, Decode, Rel, StmtsCells, ExecStmts, StmtsLen, WfStmts, CoversStmts;
    var b := stmt.body;
    var next := st.pc + StmtsLen(b);
    SplitCells(l.m.code, st.pc, StmtsCells(n, b, st.pc, At(next + 5), At(next)), OpRef(JMP, At(st.pc)), l.entries);
    assert next + 5 < 0x1_0000_0000 && st.pc < 0x1_0000_0000;
    var rb := ExecStmts(l.p, b, s, depth, fuel);
    k, st' := SimRound(l, n, b, s, st, depth, fuel, st.pc, next + 5);
    if rb.flow.Next? || rb.flow.Continued? {
      var st1, k2 := st', 0;
      k2, st' := SimLoop(l, n, stmt, rb.st, st1, depth, fuel - 1, brk, cont, inLoop);
      k := Chain(l, n, st, k, st1, ExecStmt(l.p, stmt, rb.st, depth, fuel - 1), next + 5, brk, cont, k2, st');
    }
  }

  lemma {:induction false} SimFor(l: Linked, n: Names, stmt: Stmt, s: Store, st: State, depth: nat, fuel: nat,
                                  brk: nat, cont: nat, inLoop: bool)
    returns (k: nat, st': State)
    requires stmt.For?
    requires StmtReady(l, n, stmt, s, st, depth, fuel, brk, cont, inLoop)
    ensures StmtDone(l, n, st, ExecStmt(l.p, stmt, s, depth, fuel), st.pc + StmtLen(stmt), brk, cont, k, st')
    decreases fuel, stmt, 1
  {
    hide Step, Decode, ExprCells, ForCells, EvalExpr, ExecFor, ExprLen, ForLen, WfExpr, WfStmts, CoversExpr,
         CoversStmts;
    FrameRoomGivesRoom(l, n, st, depth, StmtDepth(stmt));
    var top := st.pc + ExprLen(stmt.start) + 5;
    var c1, c2 := ExprCells(n, stmt.start), OpImm(STORELOCAL, IndexOf(n.locals, stmt.name));
    var c3 := ForCells(n, stmt.name, stmt.end, stmt.step, stmt.kind, stmt.body, top);
    SplitCells(l.m.code, st.pc, c1 + c2, c3, l.entries);
    SplitCells(l.m.code, st.pc, c1, c2, l.entries);
    var r := EvalExpr(l.p, stmt.start, s, depth, fuel);
    var k1, st1 := SimExpr(l, n, stmt.start, s, st, depth, fuel);
    var st2 := SimStore(l, n, stmt.name, r.v, s, st, st1);
    var k2 := Then(l.m, st, k1, st1, st2);
    var s2 := Store(s.vars[stmt.name := r.v], r.out);
    var k3;
    k3, st' := SimForLoop(l, n, stmt, s2, st2, depth, fuel, brk, cont);
    k := Chain(l, n, st, k2, st2, ExecFor(l.p, stmt, s2, depth, fuel), st.pc + StmtLen(stmt), brk, cont, k3, st');
  }

  /** The machine is at the test of a `for` statement. */
  ghost predicate ForAt(l: Linked, n: Names, stmt: Stmt, s: Store, st: State, depth: nat) {
    && stmt.For? && Env(l, n)
    && WfStmt(l.p, stmt, true) && CoversStmt(n, stmt)
    && HasCells(l.m.code, st.pc, ForCells(n, stmt.name, stmt.end, stmt.step, stmt.kind, stmt.body, st.pc), l.entries)
    && Rel(n, s, st) && FrameRoom(l, n, st, depth, StmtDepth(stmt))
  }

  ghost predicate ForReady(l: Linked, n: Names, stmt: Stmt, s: Store, st: State, depth: nat, fuel: nat) {
    ForAt(l, n, stmt, s, st, depth) && ExecFor(l.p, stmt, s, depth, fuel).End?
  }

  lemma ForSplit(l: Linked, n: Names, stmt: Stmt, top: nat)
    requires stmt.For? && |l.m.code| < 0x1_0000_0000
    requires HasCells(l.m.code, top, ForCells(n, stmt.name, stmt.end, stmt.step, stmt.kind, stmt.body, top), l.entries)
    ensures var i := IndexOf(n.locals, stmt.name);
            var bbase := top + ExprLen(stmt.end) + 11;
            var next := bbase + StmtsLen(stmt.body);
            var after := top + ForLen(stmt.end, stmt.step, stmt.body);
            && next < 0x1_0000_0000 && after < 0x1_0000_0000
            && HasCells(l.m.code, top, ForHead(n, i, stmt.end, stmt.kind, At(after)), l.entries)
            && HasCells(l.m.code, bbase, StmtsCells(n, stmt.body, bbase, At(after), At(next)), l.entries)
            && HasCells(l.m.code, next, ForTail(n, i, stmt.step, top), l.entries)
  {
    hide ForHead, ForTail, StmtsCells, ExprLen, StmtsLen;
    var i := IndexOf(n.locals, stmt.name);
    var bbase := top + ExprLen(stmt.end) + 11;
    var next := bbase + StmtsLen(stmt.body);
    var after := top + ForLen(stmt.end, stmt.step, stmt.body);
    var c1, c2, c3 := ForHead(n, i, stmt.end, stmt.kind, At(after)),
                      StmtsCells(n, stmt.body, bbase, At(after), At(next)), ForTail(n, i, stmt.step, top);
    SplitCells(l.m.code, top, c1 + c2, c3, l.entries);
    SplitCells(l.m.code, top, c1, c2, l.entries);
  }

  predicate InRange(kind: RangeKind, i: i32, end: i32) {
    if kind.Exclusive? then i < end else i <= end
  }

  /** The test of a `for` round: into the body, or past the loop. */
  lemma {:induction false} SimForHead(l: Linked, n: Names, stmt: Stmt, s: Store, st: State, depth: nat, fuel: nat,
                                      after: nat)
    returns (k: nat, st': State)
    requires stmt.For? && Env(l, n) && stmt.name in s.vars && after < 0x1_0000_0000
    requires WfExpr(l.p, stmt.end) && CoversExpr(n, stmt.end)
    requires HasCells(l.m.code, st.pc, ForHead(n, IndexOf(n.locals, stmt.name), stmt.end, stmt.kind, At(after)), l.entries)
    requires Rel(n, s, st) && FrameRoom(l, n, st, depth, 1 + ExprDepth(stmt.end))
    requires EvalExpr(l.p, stmt.end, s, depth, fuel).Value?
    ensures var r := EvalExpr(l.p, stmt.end, s, depth, fuel);
            var go := InRange(stmt.kind, s.vars[stmt.name], r.v);
            && Steps(l.m, st, k) == Some(st')
            && Settled(n, st, s.(out := r.out), if go then st.pc + ExprLen(stmt.end) + 11 else after, st')
    decreases fuel, stmt.end, 2
  {
    hide Step, Decode, HasCells, ExprCells, EvalExpr, ExprLen, WfExpr, CoversExpr, Env, ValidLinked, Holds, UnByte,
         CastByte;
    FrameRoomGivesRoom(l, n, st, depth, 1 + ExprDepth(stmt.end));
    var x, e := stmt.name, stmt.end;
    var op := if stmt.kind.Exclusive? then BinOp.Lt else BinOp.Le;
    Split4(l, st.pc, OpImm(LOADLOCAL, IndexOf(n.locals, x)), ExprCells(n, e), Op(BinByte(op)), OpRef(JZ, At(after)));
    assert Holds(n, x, s.vars[x], st);
    var k1, st1 := SimLoad(l, n, x, s.vars[x], st);
    RelAbove(n, s, st, st1, st.out);
    var k2, st2 := SimExpr(l, n, e, s, st1, depth, fuel);
    StepsCompose(l.m, st, k1, st1, k2, st2);
    var r := EvalExpr(l.p, e, s, depth, fuel);
    var st3 := SimBinOp(l, op, st2, OfBool(InRange(stmt.kind, s.vars[x], r.v)));
    var k3 := Then(l.m, st, k1 + k2, st2, st3);
    st' := SimJz(l, st3, after);
    k := Then(l.m, st, k3, st3, st');
    RelAbove(n, s, st, st', r.out);
  }

  lemma SimStoreJump(l: Linked, n: Names, x: string, v: i32, s: Store, st: State, st1: State, top: nat)
    returns (k: nat, st': State)
    requires HasCells(l.m.code, st1.pc, OpImm(STORELOCAL, IndexOf(n.locals, x)), l.entries)
    requires HasCells(l.m.code, st1.pc + 5, OpRef(JMP, At(top)), l.entries) && top < 0x1_0000_0000
    requires x in n.locals && Level(n, st) && |st.stack| < 0x8000_0000
    requires Rel(n, s, st) && SameBelow(st, st1, st.sp)
    requires st1.sp == st.sp + 1 <= |st1.stack| && st1.stack[st.sp] == v
    ensures Steps(l.m, st1, k) == Some(st')
    ensures Settled(n, st, Store(s.vars[x := v], st1.out), top, st')
  {
    hide Step, Decode;
    var st2 := SimStore(l, n, x, v, s, st, st1);
    var k2 := Then(l.m, st1, 0, st1, st2);
    st' := SimJmp(l, st2, top);
    k := Then(l.m, st1, k2, st2, st');
    RelJump(n, Store(s.vars[x := v], st1.out), st2, top);
  }

  /** What a `for` round adds to its variable. */
  lemma {:induction false} SimForStep(l: Linked, n: Names, step: Option<Expr>, s: Store, st: State, depth: nat,
                                      fuel: nat, r: ExprResult)
    returns (k: nat, st': State)
    requires Env(l, n) && Rel(n, s, st)
    requires step.Some? ==> WfExpr(l.p, step.value) && CoversExpr(n, step.value)
    requires HasCells(l.m.code, st.pc, if step.None? then OpImm(PUSH, 1) else ExprCells(n, step.value), l.entries)
    requires Room(l, st, depth, if step.None? then 1 else ExprDepth(step.value))
    requires r.Value? && r == if step.None? then Value(1, s.out) else EvalExpr(l.p, step.value, s, depth, fuel)
    requires st.out == s.out
    ensures Pushed(l.m, st, k, st', StepLen(step), r.v, r.out)
    decreases fuel, step, 1
  {
    hide Step, Decode, HasCells, ExprCells, EvalExpr, ExprLen, WfExpr, CoversExpr, Env, Rel, Pushed, StackNeed;
    RoomInside(l, st, depth, if step.None? then 1 else ExprDepth(step.value));
    if step.None? {
      k, st' := SimPush(l, st, 1);
    } else {
      k, st' := SimExpr(l, n, step.value, s, st, depth, fuel);
    }
  }

  lemma VarHasSlot(n: Names, s: Store, st: State, x: string)
    requires Rel(n, s, st) && x in s.vars
    ensures x in n.locals
  {
    assert Holds(n, x, s.vars[x], st);
  }

  /** The new value of the variable of a `for` loop, on top of the stack. */
  lemma {:induction false} SimForSum(l: Linked, n: Names, stmt: Stmt, s: Store, st: State, depth: nat, fuel: nat,
                                     r: ExprResult)
    returns (k: nat, st': State)
    requires stmt.For? && Env(l, n) && stmt.name in s.vars && Rel(n, s, st)
    requires stmt.step.Some? ==> WfExpr(l.p, stmt.step.value) && CoversExpr(n, stmt.step.value)
    requires HasCells(l.m.code, st.pc, OpImm(LOADLOCAL, IndexOf(n.locals, stmt.name)), l.entries)
    requires HasCells(l.m.code, st.pc + 5,
                      if stmt.step.None? then OpImm(PUSH, 1) else ExprCells(n, stmt.step.value), l.entries)
    requires HasCells(l.m.code, st.pc + 5 + StepLen(stmt.step), Op(ADD), l.entries)
    requires Room(l, st, depth, 1 + if stmt.step.None? then 1 else ExprDepth(stmt.step.value))
    requires r.Value? && r == if stmt.step.None? then Value(1, s.out) else EvalExpr(l.p, stmt.step.value, s, depth, fuel)
    ensures Pushed(l.m, st, k, st', 5 + StepLen(stmt.step) + 1, Wrap32(s.vars[stmt.name] + r.v), r.out)
    decreases fuel, stmt.step, 2
  {
    hide Step, Decode, HasCells, ExprCells, EvalExpr, ExprLen, WfExpr, CoversExpr, Env, Wrap32, ValidLinked, StackNeed,
         BinByte, UnByte, CastByte, Holds, Pushed;
    OpBytes();
    RoomInside(l, st, depth, 1 + if stmt.step.None? then 1 else ExprDepth(stmt.step.value));
    var x := stmt.name;
    assert Holds(n, x, s.vars[x], st);
    var k1, st1 := SimLoad(l, n, x, s.vars[x], st);
    RelAbove(n, s, st, st1, st.out);
    var k2, st2 := SimForStep(l, n, stmt.step, s, st1, depth, fuel, r);
    k, st' := SimOnTwo(l, BinOp.Add, st, k1, 5, s.vars[x], st.out, st1, k2, StepLen(stmt.step), r.v, r.out, st2,
                       Wrap32(s.vars[x] + r.v));
  }

  /** The increment of a `for` round and the jump back to its test. */
  lemma {:induction false} SimForTail(l: Linked, n: Names, stmt: Stmt, s: Store, st: State, depth: nat, fuel: nat,
                                      top: nat)
    returns (k: nat, st': State)
    requires stmt.For? && Env(l, n) && stmt.name in s.vars && top < 0x1_0000_0000
    requires stmt.step.Some? ==> WfExpr(l.p, stmt.step.value) && CoversExpr(n, stmt.step.value)
    requires HasCells(l.m.code, st.pc, ForTail(n, IndexOf(n.locals, stmt.name), stmt.step, top), l.entries)
    requires Rel(n, s, st)
    requires FrameRoom(l, n, st, depth, 1 + if stmt.step.None? then 1 else ExprDepth(stmt.step.value))
    requires stmt.step.Some? ==> EvalExpr(l.p, stmt.step.value, s, depth, fuel).Value?
    ensures var r := if stmt.step.None? then Value(1, s.out) else EvalExpr(l.p, stmt.step.value, s, depth, fuel);
            && Steps(l.m, st, k) == Some(st')
            && Settled(n, st, Store(s.vars[stmt.name := Wrap32(s.vars[stmt.name] + r.v)], r.out), top, st')
    decreases fuel, stmt.step, 3
  {
    hide Step, Decode, HasCells, ExprCells, EvalExpr, ExprLen, WfExpr, CoversExpr, Env, Wrap32, Rel, Settled, SameBelow,
         StackNeed, IndexOf;
    var x := stmt.name;
    var i := IndexOf(n.locals, x);
    VarHasSlot(n, s, st, x);
    var need := if stmt.step.None? then 1 else ExprDepth(stmt.step.value);
    FrameRoomGivesRoom(l, n, st, depth, 1 + need);
    var inc := if stmt.step.None? then OpImm(PUSH, 1) else ExprCells(n, stmt.step.value);
    Split5(l, st.pc, OpImm(LOADLOCAL, i), inc, Op(ADD), OpImm(STORELOCAL, i), OpRef(JMP, At(top)));
    var r := if stmt.step.None? then Value(1, s.out) else EvalExpr(l.p, stmt.step.value, s, depth, fuel);
    var k1, st1 := SimForSum(l, n, stmt, s, st, depth, fuel, r);
    var k2;
    k2, st' := SimStoreJump(l, n, x, Wrap32(s.vars[x] + r.v), s, st, st1, top);
    StepsCompose(l.m, st, k1, st1, k2, st');
    k := k1 + k2;
  }

  lemma {:induction false} SimForLoop(l: Linked, n: Names, stmt: Stmt, s: Store, st: State, depth: nat, fuel: nat,
                                      brk: nat, cont: nat)
    returns (k: nat, st': State)
    requires ForReady(l, n, stmt, s, st, depth, fuel)
    ensures StmtDone(l, n, st, ExecFor(l.p, stmt, s, depth, fuel),
                     st.pc + ForLen(stmt.end, stmt.step, stmt.body), brk, cont, k, st')
    decreases fuel, stmt, 0
  {
    hide Step, Decode, Rel, HasCells, EvalExpr, ExecStmts, ExprLen, StmtsLen, ForLen, ForHead, ForTail, ForCells,
         StmtsCells, WfExpr, WfStmts, CoversExpr, CoversStmts;
    var x, b := stmt.name, stmt.body;
    ForSplit(l, n, stmt, st.pc);
    var next := st.pc + ExprLen(stmt.end) + 11 + StmtsLen(b);
    var after := st.pc + ForLen(stmt.end, stmt.step, b);
    var re := EvalExpr(l.p, stmt.end, s, depth, fuel);
    var s1 := s.(out := re.out);
    var k1, st1 := SimForHead(l, n, stmt, s, st, depth, fuel, after);
    k, st' := k1, st1;
    if InRange(stmt.kind, s.vars[x], re.v) {
      var rb := ExecStmts(l.p, b, s1, depth, fuel);
      var k2, st2 := SimStmts(l, n, b, s1, st1, depth, fuel, after, next, true);
      k := Chain(l, n, st, k1, st1, rb, next, after, next, k2, st2);
      st' := st2;
      if rb.flow.Next? || rb.flow.Continued? {
        var inc := if stmt.step.None? then Value(1, rb.st.out) else EvalExpr(l.p, stmt.step.value, rb.st, depth, fuel);
        var k3, st3 := SimForTail(l, n, stmt, rb.st, st2, depth, fuel, st.pc);
        StepsCompose(l.m, st, k, st2, k3, st3);
        var s3 := Store(rb.st.vars[x := Wrap32(rb.st.vars[x] + inc.v)], inc.out);
        var k4;
        k4, st' := SimForLoop(l, n, stmt, s3, st3, depth, fuel - 1, brk, cont);
        k := Chain(l, n, st, k + k3, st3, ExecFor(l.p, stmt, s3, depth, fuel - 1), after, brk, cont, k4, st');
      }
    }
  }

  lemma {:induction false} ArmCodeAt(l: Linked, n: Names, arms: seq<Arm>, j: nat, base: nat, end: nat, brk: Target,
                                     cont: Target)
    requires j < |arms|
    requires HasCells(l.m.code, base, ArmsCells(n, arms, base, end, brk, cont), l.entries)
    ensures var at := base + ArmsLen(arms[..j]);
            HasCells(l.m.code, at, ArmCells(n, arms[j], at, end, brk, cont), l.entries)
  {
    hide HasCells, ArmCells, ArmLen;
    var k := |arms| - 1;
    SplitCells(l.m.code, base, ArmsCells(n, arms[..k], base, end, brk, cont),
               ArmCells(n, arms[k], base + ArmsLen(arms[..k]), end, brk, cont), l.entries);
    if j < k {
      ArmCodeAt(l, n, arms[..k], j, base, end, brk, cont);
      assert arms[..k][..j] == arms[..j];
    }
  }

  lemma {:induction false} ArmFacts(n: Names, arms: seq<Arm>, j: nat)
    requires j < |arms| && CoversArms(n, arms)
    ensures CoversStmts(n, arms[j].body) && StmtsDepth(arms[j].body) <= ArmsDepth(arms)
  {
    if j < |arms| - 1 {
      ArmFacts(n, arms[..|arms| - 1], j);
    }
  }

  /** The test of a literal arm: a miss jumps on with the scrutinee kept, a hit drops it. */
  lemma SimArmTest(l: Linked, lit: i32, miss: nat, st: State, v: i32) returns (k: nat, st': State)
    requires HasCells(l.m.code, st.pc, ArmTest(lit, At(miss)), l.entries) && miss < 0x1_0000_0000
    requires 1 <= st.sp && st.sp + 2 <= |st.stack| && st.stack[st.sp - 1] == v
    ensures Steps(l.m, st, k) == Some(st') && st'.out == st.out && SameBelow(st, st', st.sp)
    ensures v == lit ==> st'.pc == st.pc + 13 && st'.sp == st.sp - 1
    ensures v != lit ==> st'.pc == miss && st'.sp == st.sp
  {
    hide Step, Decode, HasCells;
    Split5(l, st.pc, Op(DUP), OpImm(PUSH, lit), Op(CMPEQ), OpRef(JZ, At(miss)), Op(POP));
    var st1 := SimDup(l, st);
    var k1 := Then(l.m, st, 0, st, st1);
    var k2, st2 := SimPush(l, st1, lit);
    StepsCompose(l.m, st, k1, st1, k2, st2);
    var st3 := SimBinOp(l, BinOp.Eq, st2, OfBool(v == lit));
    var k3 := Then(l.m, st, k1 + k2, st2, st3);
    st' := SimJz(l, st3, miss);
    k := Then(l.m, st, k3, st3, st');
    if v == lit {
      var st4 := st';
      st' := SimPop(l, st4);
      k := Then(l.m, st, k, st4, st');
    }
  }

  lemma SimDup(l: Linked, st: State) returns (st': State)
    requires HasCells(l.m.code, st.pc, Op(DUP), l.entries) && 1 <= st.sp < |st.stack|
    ensures Step(l.m, st) == Go(st')
    ensures st' == st.(pc := st.pc + 1, sp := st.sp + 1, stack := st.stack[st.sp := st.stack[st.sp - 1]])
  {
    DecodeOp(l.m.code, st.pc, DUP, l.entries);
    assert Decode(l.m.code, st.pc) == IDup;
    st' := Step(l.m, st).st;
  }

  /** The test, body and jump of a literal arm. */
  lemma ArmParts(l: Linked, n: Names, a: Arm, base: nat, end: nat, brk: Target, cont: Target)
    requires a.pat.LitPat? && HasCells(l.m.code, base, ArmCells(n, a, base, end, brk, cont), l.entries)
    ensures base + ArmLen(a) <= |l.m.code|
    ensures HasCells(l.m.code, base, ArmTest(a.pat.lit, At(base + ArmLen(a))), l.entries)
    ensures HasCells(l.m.code, base + 13, StmtsCells(n, a.body, base + 13, brk, cont), l.entries)
    ensures HasCells(l.m.code, base + 13 + StmtsLen(a.body), OpRef(JMP, At(end)), l.entries)
  {
    hide StmtsCells, StmtsLen, HasCells, OpRef, ArmTest;
    var test, body := ArmTest(a.pat.lit, At(base + ArmLen(a))), StmtsCells(n, a.body, base + 13, brk, cont);
    CellsFit(l, base, ArmCells(n, a, base, end, brk, cont));
    SplitCells(l.m.code, base, test + body, OpRef(JMP, At(end)), l.entries);
    SplitCells(l.m.code, base, test, body, l.entries);
  }

  lemma CellsFit(l: Linked, pc: nat, cs: seq<Cell>)
    requires HasCells(l.m.code, pc, cs, l.entries)
    ensures pc + |cs| <= |l.m.code|
  {
  }

  /** Running past the first j arms, none of which takes v. */
  lemma {:induction false} SimMisses(l: Linked, n: Names, arms: seq<Arm>, j: nat, st: State, v: i32,
                                     end: nat, brk: Target, cont: Target)
    returns (k: nat, st': State)
    requires j <= |arms| && |l.m.code| < 0x1_0000_0000
    requires forall i :: 0 <= i < j ==> arms[i].pat.LitPat? && arms[i].pat.lit != v
    requires HasCells(l.m.code, st.pc, ArmsCells(n, arms, st.pc, end, brk, cont), l.entries)
    requires 1 <= st.sp && st.sp + 2 <= |st.stack| && st.stack[st.sp - 1] == v
    ensures Steps(l.m, st, k) == Some(st') && st'.out == st.out && SameBelow(st, st', st.sp)
    ensures st'.pc == st.pc + ArmsLen(arms[..j]) && st'.sp == st.sp
    decreases j
  {
    hide Step, Decode, ArmsCells, ArmCells, ArmLen, HasCells;
    if j == 0 {
      k, st' := 0, st;
    } else {
      var k1, st1 := SimMisses(l, n, arms, j - 1, st, v, end, brk, cont);
      ArmCodeAt(l, n, arms, j - 1, st.pc, end, brk, cont);
      var a := arms[j - 1];
      assert arms[..j][..j - 1] == arms[..j - 1];
      ArmParts(l, n, a, st1.pc, end, brk, cont);
      var k2;
      k2, st' := SimArmTest(l, a.pat.lit, st1.pc + ArmLen(a), st1, v);
      StepsCompose(l.m, st, k1, st1, k2, st');
      k := k1 + k2;
    }
  }

  /** Into the body of the arm that takes the value, with the scrutinee dropped. */
  lemma SimArmEnter(l: Linked, n: Names, a: Arm, s: Store, st0: State, st: State, v: i32, depth: nat, end: nat,
                    brk: nat, cont: nat)
    returns (k: nat, st': State)
    requires |l.m.code| < 0x1_0000_0000
    requires HasCells(l.m.code, st.pc, ArmCells(n, a, st.pc, end, At(brk), At(cont)), l.entries)
    requires a.pat.LitPat? ==> a.pat.lit == v
    requires SameBelow(st0, st, st0.sp) && st.sp == st0.sp + 1 && st.sp + 2 <= |st.stack| && st.stack[st0.sp] == v
    requires Rel(n, s, st0.(out := st.out)) && FrameRoom(l, n, st0, depth, StmtsDepth(a.body))
    ensures Steps(l.m, st, k) == Some(st') && SameBelow(st, st', st.fp)
    ensures st'.pc == st.pc + (if a.pat.Wildcard? then 1 else 13)
    ensures Rel(n, s, st') && FrameRoom(l, n, st', depth, StmtsDepth(a.body))
    ensures HasCells(l.m.code, st'.pc, StmtsCells(n, a.body, st'.pc, At(brk), At(cont)), l.entries)
    ensures a.pat.LitPat? ==> HasCells(l.m.code, st'.pc + StmtsLen(a.body), OpRef(JMP, At(end)), l.entries)
  {
    hide Step, Decode, HasCells, StmtsCells, StmtsLen, StmtsDepth, StackNeed;
    if a.pat.Wildcard? {
      SplitCells(l.m.code, st.pc, Op(POP), StmtsCells(n, a.body, st.pc + 1, At(brk), At(cont)), l.entries);
      st' := SimPop(l, st);
      k := Then(l.m, st, 0, st, st');
    } else {
      ArmParts(l, n, a, st.pc, end, At(brk), At(cont));
      k, st' := SimArmTest(l, v, st.pc + ArmLen(a), st, v);
    }
    RelAbove(n, s, st0.(out := st.out), st', st.out);
    assert s.(out := st.out) == s;
  }

  /** The arm that takes the value: its body runs with the scrutinee dropped. */
  lemma {:induction false} SimArm(l: Linked, n: Names, a: Arm, s: Store, st0: State, st: State, v: i32,
                                  depth: nat, fuel: nat, end: nat, brk: nat, cont: nat, inLoop: bool)
    returns (k: nat, st': State)
    requires Env(l, n) && WfStmts(l.p, a.body, inLoop) && CoversStmts(n, a.body)
    requires HasCells(l.m.code, st.pc, ArmCells(n, a, st.pc, end, At(brk), At(cont)), l.entries)
    requires end < 0x1_0000_0000 && brk < 0x1_0000_0000 && cont < 0x1_0000_0000
    requires a.pat.Wildcard? ==> st.pc + ArmLen(a) == end
    requires a.pat.LitPat? ==> a.pat.lit == v
    requires SameBelow(st0, st, st0.sp) && st.sp == st0.sp + 1 && st.sp + 2 <= |st.stack| && st.stack[st0.sp] == v
    requires Rel(n, s, st0.(out := st.out)) && FrameRoom(l, n, st0, depth, StmtsDepth(a.body))
    requires ExecStmts(l.p, a.body, s, depth, fuel).End?
    ensures StmtDone(l, n, st, ExecStmts(l.p, a.body, s, depth, fuel), end, brk, cont, k, st')
    decreases fuel, a.body, 3
  {
    hide Step, Decode, HasCells, StmtsCells, StmtsLen, ExecStmts, WfStmts, CoversStmts, StmtsDepth, StackNeed;
    var r := ExecStmts(l.p, a.body, s, depth, fuel);
    var k1, st1 := SimArmEnter(l, n, a, s, st0, st, v, depth, end, brk, cont);
    var k2, st2 := SimStmts(l, n, a.body, s, st1, depth, fuel, brk, cont, inLoop);
    k := Chain(l, n, st, k1, st1, r, st1.pc + StmtsLen(a.body), brk, cont, k2, st2);
    st' := st2;
    if r.flow.Next? && a.pat.LitPat? {
      st' := SimJmp(l, st2, end);
      k := Then(l.m, st, k, st2, st');
      RelJump(n, r.st, st2, end);
    }
  }

  lemma MatchCode(l: Linked, n: Names, stmt: Stmt, base: nat, brk: Target, cont: Target)
    requires stmt.Match? && |l.m.code| < 0x1_0000_0000
    requires HasCells(l.m.code, base, StmtCells(n, stmt, base, brk, cont), l.entries)
    ensures var arms := stmt.arms;
            var abase := base + ExprLen(stmt.scrutinee);
            var end := base + StmtLen(stmt);
            && end < 0x1_0000_0000 && end == abase + ArmsLen(arms) + ArmsTailLen(arms)
            && HasCells(l.m.code, base, ExprCells(n, stmt.scrutinee), l.entries)
            && HasCells(l.m.code, abase, ArmsCells(n, arms, abase, end, brk, cont), l.entries)
            && (ArmsTailLen(arms) == 1 ==> HasCells(l.m.code, abase + ArmsLen(arms), Op(POP), l.entries))
  {
    hide ExprCells, ExprLen, ArmsCells, ArmsLen, ArmsTailLen;
    var arms := stmt.arms;
    var abase := base + ExprLen(stmt.scrutinee);
    var c1, c2 := ExprCells(n, stmt.scrutinee), ArmsCells(n, arms, abase, base + StmtLen(stmt), brk, cont);
    var c3 := if ArmsTailLen(arms) == 1 then Op(POP) else [];
    SplitCells(l.m.code, base, c1 + c2, c3, l.entries);
    SplitCells(l.m.code, base, c1, c2, l.entries);
  }

  /** The machine has come to the code after the first j arms, with the value of the scrutinee on top. */
  ghost predicate AtArm(l: Linked, stmt: Stmt, st: State, v: i32, out: seq<u8>, k: nat, st': State) {
    && stmt.Match? && Steps(l.m, st, k) == Some(st') && SameBelow(st, st', st.sp)
    && st'.sp == st.sp + 1 < |st'.stack| && st'.stack[st.sp] == v && st'.out == out
    && st'.pc == st.pc + ExprLen(stmt.scrutinee) + ArmsLen(stmt.arms[..ArmFor(stmt.arms, v)])
  }

  lemma {:induction false} SimToArm(l: Linked, n: Names, stmt: Stmt, s: Store, st: State, depth: nat, fuel: nat,
                                    brk: nat, cont: nat, inLoop: bool)
    returns (k: nat, st': State)
    requires stmt.Match? && StmtAt(l, n, stmt, s, st, depth, brk, cont, inLoop)
    requires EvalExpr(l.p, stmt.scrutinee, s, depth, fuel).Value?
    ensures var r := EvalExpr(l.p, stmt.scrutinee, s, depth, fuel); AtArm(l, stmt, st, r.v, r.out, k, st')
    decreases fuel, stmt.scrutinee, 2
  {
    hide Step, Decode, ExprCells, StmtCells, EvalExpr, ExprLen, ArmsCells, ArmsLen, WfExpr, WfStmts, CoversExpr,
         CoversArms, StmtsDepth, ArmsDepth, Rel, ArmFor, StackNeed, FnLinked, HasCells;
    FrameRoomGivesRoom(l, n, st, depth, StmtDepth(stmt));
    MatchCode(l, n, stmt, st.pc, At(brk), At(cont));
    var r := EvalExpr(l.p, stmt.scrutinee, s, depth, fuel);
    var k1, st1 := SimExpr(l, n, stmt.scrutinee, s, st, depth, fuel);
    ArmForMisses(stmt.arms, r.v);
    var k2;
    k2, st' := SimMisses(l, n, stmt.arms, ArmFor(stmt.arms, r.v), st1, r.v, st.pc + StmtLen(stmt), At(brk), At(cont));
    StepsCompose(l.m, st, k1, st1, k2, st');
    k := k1 + k2;
  }

  lemma ArmForMisses(arms: seq<Arm>, v: i32)
    ensures ArmFor(arms, v) <= |arms|
    ensures forall i :: 0 <= i < ArmFor(arms, v) ==> arms[i].pat.LitPat? && arms[i].pat.lit != v
    ensures ArmFor(arms, v) < |arms| ==> var a := arms[ArmFor(arms, v)]; a.pat.Wildcard? || a.pat.lit == v
  {
  }

  /** What the body of the chosen arm needs to run. */
  lemma {:induction false} ArmReady(l: Linked, n: Names, stmt: Stmt, s: Store, st: State, st1: State, depth: nat,
                                    v: i32, k: nat, brk: nat, cont: nat, inLoop: bool)
    requires stmt.Match? && StmtAt(l, n, stmt, s, st, depth, brk, cont, inLoop)
    requires AtArm(l, stmt, st, v, st1.out, k, st1) && ArmFor(stmt.arms, v) < |stmt.arms|
    ensures var a, end := stmt.arms[ArmFor(stmt.arms, v)], st.pc + StmtLen(stmt);
            && WfStmts(l.p, a.body, inLoop) && CoversStmts(n, a.body) && end < 0x1_0000_0000
            && HasCells(l.m.code, st1.pc, ArmCells(n, a, st1.pc, end, At(brk), At(cont)), l.entries)
            && (a.pat.Wildcard? ==> st1.pc + ArmLen(a) == end) && (a.pat.LitPat? ==> a.pat.lit == v)
            && st1.sp + 2 <= |st1.stack|
            && Rel(n, s.(out := st1.out), st.(out := st1.out))
            && st.fp <= st.sp && FrameRoom(l, n, st, depth, StmtsDepth(a.body))
  {
    hide Step, Decode, Steps, ExprCells, StmtCells, ArmsCells, ArmCells, ExprLen, ArmsLen, ArmLen, WfExpr, WfStmts,
         CoversExpr, CoversStmts, CoversArms, StmtsDepth, ArmsDepth, Holds, ArmFor, StackNeed, FnLinked, HasCells;
    var arms, j := stmt.arms, ArmFor(stmt.arms, v);
    ArmForMisses(arms, v);
    FrameRoomGivesRoom(l, n, st, depth, StmtDepth(stmt));
    MatchCode(l, n, stmt, st.pc, At(brk), At(cont));
    ArmCodeAt(l, n, arms, j, st.pc + ExprLen(stmt.scrutinee), st.pc + StmtLen(stmt), At(brk), At(cont));
    ArmFacts(n, arms, j);
    ArmEnds(arms, j);
    RelAbove(n, s, st, st.(out := st1.out), st1.out);
  }

  lemma {:induction false} SimMatch(l: Linked, n: Names, stmt: Stmt, s: Store, st: State, depth: nat, fuel: nat,
                                    brk: nat, cont: nat, inLoop: bool)
    returns (k: nat, st': State)
    requires stmt.Match?
    requires StmtReady(l, n, stmt, s, st, depth, fuel, brk, cont, inLoop)
    ensures StmtDone(l, n, st, ExecStmt(l.p, stmt, s, depth, fuel), st.pc + StmtLen(stmt), brk, cont, k, st')
    decreases fuel, stmt, 1
  {
    hide Step, Decode, StmtCells, StmtLen, EvalExpr, ExecStmts, ArmCells, ArmLen, WfStmts, CoversStmts, StmtsDepth, Rel,
         ArmFor, FrameRoom, HasCells;
    var e, arms := stmt.scrutinee, stmt.arms;
    var r := EvalExpr(l.p, e, s, depth, fuel);
    var s1 := s.(out := r.out);
    var k1, st1 := SimToArm(l, n, stmt, s, st, depth, fuel, brk, cont, inLoop);
    ArmForMisses(arms, r.v);
    var j := ArmFor(arms, r.v);
    if j == |arms| {
      k, st' := SimNoArm(l, n, stmt, s, st, st1, depth, r.v, k1, brk, cont, inLoop);
    } else {
      ArmReady(l, n, stmt, s, st, st1, depth, r.v, k1, brk, cont, inLoop);
      var k2;
      k2, st' := SimArm(l, n, arms[j], s1, st, st1, r.v, depth, fuel, st.pc + StmtLen(stmt), brk, cont, inLoop);
      k := Chain(l, n, st, k1, st1, ExecStmts(l.p, arms[j].body, s1, depth, fuel), st.pc + StmtLen(stmt), brk, cont,
                 k2, st');
    }
  }

  /** No arm takes the value: it is dropped behind the last arm. */
  lemma SimNoArm(l: Linked, n: Names, stmt: Stmt, s: Store, st: State, st1: State, depth: nat, v: i32, k1: nat,
                 brk: nat, cont: nat, inLoop: bool)
    returns (k: nat, st': State)
    requires stmt.Match? && StmtAt(l, n, stmt, s, st, depth, brk, cont, inLoop)
    requires AtArm(l, stmt, st, v, st1.out, k1, st1) && ArmFor(stmt.arms, v) == |stmt.arms|
    ensures Steps(l.m, st, k) == Some(st')
    ensures Settled(n, st, s.(out := st1.out), st.pc + StmtLen(stmt), st')
  {
    hide Step, Decode, ExprCells, StmtCells, ArmsCells, ExprLen, ArmsLen, WfExpr, WfStmts, CoversExpr, CoversArms,
         StmtsDepth, ArmsDepth, Holds, ArmFor, StackNeed, FnLinked, HasCells;
    ArmForMisses(stmt.arms, v);
    MatchCode(l, n, stmt, st.pc, At(brk), At(cont));
    assert stmt.arms[..|stmt.arms|] == stmt.arms;
    st' := SimPop(l, st1);
    k := Then(l.m, st, k1, st1, st');
    RelAbove(n, s, st, st', st1.out);
  }

  /** A `_` arm in last position ends where the match ends. */
  lemma ArmEnds(arms: seq<Arm>, j: nat)
    requires j < |arms| && (arms[j].pat.Wildcard? ==> j == |arms| - 1)
    ensures arms[j].pat.Wildcard? ==> ArmsLen(arms[..j]) + ArmLen(arms[j]) == ArmsLen(arms) + ArmsTailLen(arms)
  {
  }

  lemma SimBreak(l: Linked, n: Names, stmt: Stmt, s: Store, st: State, depth: nat, fuel: nat,
                 brk: nat, cont: nat, inLoop: bool)
    returns (k: nat, st': State)
    requires stmt.Break? || stmt.Continue?
    requires StmtReady(l, n, stmt, s, st, depth, fuel, brk, cont, inLoop)
    ensures StmtDone(l, n, st, ExecStmt(l.p, stmt, s, depth, fuel), st.pc + StmtLen(stmt), brk, cont, k, st')
  {
    hide Step, Decode;
    st' := SimJmp(l, st, if stmt.Break? then brk else cont);
    k := Then(l.m, st, 0, st, st');
    RelAbove(n, s, st, st', s.out);
  }

  lemma {:induction false} SimReturn(l: Linked, n: Names, stmt: Stmt, s: Store, st: State, depth: nat, fuel: nat,
                                     brk: nat, cont: nat, inLoop: bool)
    returns (k: nat, st': State)
    requires stmt.Return?
    requires StmtReady(l, n, stmt, s, st, depth, fuel, brk, cont, inLoop)
    ensures StmtDone(l, n, st, ExecStmt(l.p, stmt, s, depth, fuel), st.pc + StmtLen(stmt), brk, cont, k, st')
    decreases fuel, stmt, 1
  {
    hide Step, Decode, HasCells, ValidLinked, Holds, StackNeed, BinByte, UnByte, CastByte, EvalExpr;
    FrameRoomGivesRoom(l, n, st, depth, StmtDepth(stmt));
    SplitCells(l.m.code, st.pc, ExprCells(n, stmt.result), Op(RET), l.entries);
    k, st' := SimExpr(l, n, stmt.result, s, st, depth, fuel);
    DecodeRet(l.m.code, st'.pc, l.entries);
  }

  lemma {:induction false} SimExprStmt(l: Linked, n: Names, stmt: Stmt, s: Store, st: State, depth: nat, fuel: nat,
                                       brk: nat, cont: nat, inLoop: bool)
    returns (k: nat, st': State)
    requires stmt.ExprStmt?
    requires StmtReady(l, n, stmt, s, st, depth, fuel, brk, cont, inLoop)
    ensures StmtDone(l, n, st, ExecStmt(l.p, stmt, s, depth, fuel), st.pc + StmtLen(stmt), brk, cont, k, st')
    decreases fuel, stmt, 1
  {
    hide Step, Decode, HasCells, ValidLinked, Holds, BinByte, UnByte, CastByte;
    FrameRoomGivesRoom(l, n, st, depth, StmtDepth(stmt));
    SplitCells(l.m.code, st.pc, ExprCells(n, stmt.e), Op(POP), l.entries);
    var r := EvalExpr(l.p, stmt.e, s, depth, fuel);
    var k1, st1 := SimExpr(l, n, stmt.e, s, st, depth, fuel);
    st' := SimPop(l, st1);
    k := Then(l.m, st, k1, st1, st');
    RelAbove(n, s, st, st', r.out);
  }

  lemma {:induction false} UpToNulStops(s: seq<u8>)
    ensures UpToNul(s + [0]) == UpToNul(s)
  {
    if s == [] {
    } else if s[0] != 0 {
      UpToNulStops(s[1..]);
      assert (s + [0])[1..] == s[1..] + [0];
    }
  }

  lemma SimPrintStr(l: Linked, st: State, text: seq<u8>) returns (k: nat, st': State)
    requires ValidLinked(l) && text + [0] in l.m.pool
    requires HasCells(l.m.code, st.pc, [Byte(PUSHSTR)] + Lits(Le16(IndexOf(l.m.pool, text + [0]))), l.entries)
    requires HasCells(l.m.code, st.pc + 3, Op(PRINT), l.entries)
    requires st.sp < |st.stack|
    ensures Steps(l.m, st, k) == Some(st')
    ensures st' == st.(pc := st.pc + 4, stack := st'.stack, out := st.out + UpToNul(text))
    ensures |st'.stack| == |st.stack| && forall i :: 0 <= i < st.sp ==> st'.stack[i] == st.stack[i]
  {
    var i: nat := IndexOf(l.m.pool, text + [0]);
    DecodeStr(l.m.code, st.pc, i, l.entries);
    var tag: i32 := (i as int) - 0x8000_0000;
    var st1 := Push(st.(pc := st.pc + 3), tag);
    var k1 := Then(l.m, st, 0, st, st1);
    DecodeOp(l.m.code, st1.pc, PRINT, l.entries);
    assert Decode(l.m.code, st1.pc) == IPrint;
    st' := SimPrintTagged(l, st1, text, i);
    k := Then(l.m, st, k1, st1, st');
  }

  /** Printing a tagged index shows the constant it names. */
  lemma SimPrintTagged(l: Linked, st: State, text: seq<u8>, i: nat) returns (st': State)
    requires i < |l.m.pool| <= 0x8000 && l.m.pool[i] == text + [0]
    requires 1 <= st.sp <= |st.stack| && st.stack[st.sp - 1] == (i as int) - 0x8000_0000
    requires st.pc < |l.m.code| && Decode(l.m.code, st.pc) == IPrint
    ensures Step(l.m, st) == Go(st')
    ensures st' == st.(pc := st.pc + 1, sp := st.sp - 1, out := st.out + UpToNul(text))
  {
    hide Decode;
    UpToNulStops(text);
    assert ToU32(st.stack[st.sp - 1]) % 0x8000 == i;
    st' := Step(l.m, st).st;
  }

  lemma {:induction false} SimPrint(l: Linked, n: Names, stmt: Stmt, s: Store, st: State, depth: nat, fuel: nat,
                                    brk: nat, cont: nat, inLoop: bool)
    returns (k: nat, st': State)
    requires stmt.Print?
    requires StmtReady(l, n, stmt, s, st, depth, fuel, brk, cont, inLoop)
    ensures StmtDone(l, n, st, ExecStmt(l.p, stmt, s, depth, fuel), st.pc + StmtLen(stmt), brk, cont, k, st')
    decreases fuel, stmt, 1
  {
    hide Step, Decode, I32Text, UpToNul, HasCells, ValidLinked, Holds, StackNeed, BinByte, UnByte, CastByte;
    FrameRoomGivesRoom(l, n, st, depth, StmtDepth(stmt));
    var e := stmt.shown;
    var op := Op(if e.StrLit? then PRINT else PRINTNUM);
    SplitCells(l.m.code, st.pc, ExprCells(n, e), op, l.entries);
    if e.StrLit? {
      k, st' := SimPrintStr(l, st, e.text);
    } else {
      var r := EvalExpr(l.p, e, s, depth, fuel);
      var k1, st1 := SimExpr(l, n, e, s, st, depth, fuel);
      st' := SimPrintNum(l, st1);
      k := Then(l.m, st, k1, st1, st');
    }
    RelAbove(n, s, st, st', st'.out);
  }

  lemma SimPrintNum(l: Linked, st: State) returns (st': State)
    requires HasCells(l.m.code, st.pc, Op(PRINTNUM), l.entries)
    requires 1 <= st.sp <= |st.stack|
    ensures Step(l.m, st) == Go(st')
    ensures st' == st.(pc := st.pc + 1, sp := st.sp - 1, out := st.out + I32Text(st.stack[st.sp - 1]))
  {
    DecodeOp(l.m.code, st.pc, PRINTNUM, l.entries);
    assert Decode(l.m.code, st.pc) == IPrintNum;
    st' := Step(l.m, st).st;
  }
}
