/** What the instructions do to the live part of the stack, as a sequence, and the bytes they are written with. */
module HeliosStack {
  import opened Bits
  import opened Wrappers
  import opened HeliosAst
  import opened HeliosCode
  import opened HeliosVm

  predicate Sound(st: State) {
    st.sp <= |st.stack|
  }

  /** The values on the stack, the top one last. */
  function Live(st: State): seq<i32>
    requires Sound(st)
  {
    st.stack[..st.sp]
  }

  /** The instruction goes on with these values on the stack, and changes nothing else. */
  predicate Leaves(o: Outcome, st: State, live: seq<i32>)
    requires Sound(st)
  {
    && o.Go? && Sound(o.st) && |o.st.stack| == |st.stack| && Live(o.st) == live
    && o.st.fp == st.fp && o.st.pc == st.pc && o.st.frames == st.frames && o.st.out == st.out
  }

  lemma PushLive(st: State, v: i32)
    requires st.sp < |st.stack|
    ensures Sound(Push(st, v)) && Live(Push(st, v)) == Live(st) + [v]
    ensures Push(st, v) == st.(stack := Push(st, v).stack, sp := st.sp + 1) && |Push(st, v).stack| == |st.stack|
  {
  }

  lemma TopLive(st: State, base: seq<i32>, v: i32)
    requires Sound(st) && Live(st) == base + [v]
    ensures Top(st) == v && Sound(Drop(st)) && Live(Drop(st)) == base && Drop(st) == st.(sp := |base|)
    ensures |base| < |st.stack|
  {
    assert Live(st)[|base|] == v;
    assert st.stack[..|base|] == Live(st)[..|base|];
  }

  /** Instructions that take nothing. */
  lemma PushEffects(m: Machine, st: State, n: i32, idx: u16, slot: u32)
    requires st.sp < |st.stack|
    ensures Leaves(Exec(m, IPush(n), st), st, Live(st) + [n])
    ensures Leaves(Exec(m, IPushStr(idx), st), st, Live(st) + [idx - 0x8000_0000])
    ensures st.fp + slot < st.sp ==> Leaves(Exec(m, ILoad(slot), st), st, Live(st) + [Live(st)[st.fp + slot]])
    ensures Leaves(Exec(m, ISkip, st), st, Live(st))
  {
    PushLive(st, n);
    PushLive(st, idx - 0x8000_0000);
    if st.fp + slot < st.sp {
      PushLive(st, st.stack[st.fp + slot]);
    }
  }

  /** Instructions that take the top value. */
  lemma OneEffects(m: Machine, st: State, base: seq<i32>, a: i32, uop: UnOp, slot: u32)
    requires Sound(st) && Live(st) == base + [a]
    ensures Leaves(Exec(m, IPop, st), st, base)
    ensures st.sp < |st.stack| ==> Leaves(Exec(m, IDup, st), st, base + [a, a])
    ensures Leaves(Exec(m, IUn(uop), st), st, base + [UnVal(uop, a)])
    ensures Leaves(Exec(m, ICast(ToInt), st), st, base + [a])
    ensures Leaves(Exec(m, ICast(ToBool), st), st, base + [if a == 0 then 0 else 1])
    ensures st.fp + slot < |base| ==> Leaves(Exec(m, IStore(slot), st), st, base[st.fp + slot := a])
  {
    hide UnVal;
    TopLive(st, base, a);
    PushLive(Drop(st), UnVal(uop, a));
    PushLive(Drop(st), if a == 0 then 0 else 1);
    if st.sp < |st.stack| {
      PushLive(st, a);
      assert base + [a] + [a] == base + [a, a];
    }
  }

  /** Instructions that take two values: the first operand lies below the second one. */
  lemma TwoEffects(m: Machine, st: State, base: seq<i32>, a: i32, b: i32, op: BinOp)
    requires Sound(st) && Live(st) == base + [a, b]
    ensures Leaves(Exec(m, ISwap, st), st, base + [b, a])
    ensures st.sp < |st.stack| ==> Leaves(Exec(m, IOver, st), st, base + [a, b, a])
    ensures BinVal(op, a, b).Some? ==> Leaves(Exec(m, IBin(op), st), st, base + [BinVal(op, a, b).value])
    ensures BinVal(op, a, b).None? ==> Exec(m, IBin(op), st) == Abort
  {
    hide BinVal;
    assert base + [a, b] == (base + [a]) + [b];
    TopLive(st, base + [a], b);
    var st1 := Drop(st);
    TopLive(st1, base, a);
    var st2 := Drop(st1);
    PushLive(st2, b);
    PushLive(Push(st2, b), a);
    assert base + [b] + [a] == base + [b, a];
    if BinVal(op, a, b).Some? {
      PushLive(st2, BinVal(op, a, b).value);
    }
    if st.sp < |st.stack| {
      assert SlotAt(st, st.sp - 2) == Live(st)[|base|] == a;
      PushLive(st, a);
      assert base + [a, b] + [a] == base + [a, b, a];
    }
  }

  /** Jumps, and printing. */
  lemma JumpEffects(m: Machine, st: State, base: seq<i32>, a: i32, to: u32)
    requires Sound(st) && Live(st) == base + [a]
    ensures Exec(m, IJmp(to), st) == Go(st.(pc := to))
    ensures Leaves(Exec(m, IJz(to), st), st.(pc := if a == 0 then to else st.pc), base)
    ensures Leaves(Exec(m, IJnz(to), st), st.(pc := if a == 0 then st.pc else to), base)
    ensures Leaves(Exec(m, IPrintNum, st), st.(out := st.out + I32Text(a)), base)
    ensures a >= 0 ==> Leaves(Exec(m, IPrint, st), st.(out := st.out + I32Text(a)), base)
    ensures Exec(m, IHalt, st) == Stop(st)
  {
    hide I32Text;
    TopLive(st, base, a);
  }

  /** A pushed string prints as its text up to the first NUL. */
  lemma StringPrints(m: Machine, st: State, base: seq<i32>, idx: u16)
    requires Sound(st) && Live(st) == base + [idx - 0x8000_0000] && idx < |m.pool| && idx < 0x8000
    ensures Leaves(Exec(m, IPrint, st), st.(out := st.out + UpToNul(m.pool[idx])), base)
  {
    hide I32Text, UpToNul;
    TopLive(st, base, idx - 0x8000_0000);
  }

  /** A call leaves the arguments as the first slots of a new frame, which is saved unless there are 256 already; a call
      of an address that is not in the code stops the machine. A return replaces the frame by
      the value. */
  lemma CallEffects(m: Machine, st: State, base: seq<i32>, args: seq<i32>, to: u32)
    requires Sound(st) && Live(st) == base + args + [|args|] && |args| < 0x8000_0000
    ensures to >= |m.code| ==> Exec(m, ICall(to), st).Stop?
    ensures to < |m.code| ==>
              var o := Exec(m, ICall(to), st);
              && o.Go? && Sound(o.st) && Live(o.st) == base + args && o.st.fp == |base| && o.st.pc == to
              && o.st.frames == st.frames + (if |st.frames| < 256 then [Frame(st.pc, st.fp)] else [])
              && o.st.out == st.out
  {
    TopLive(st, base + args, |args|);
  }

  lemma ReturnEffects(m: Machine, st: State, base: seq<i32>, locals: seq<i32>, v: i32, f: Frame, below: seq<Frame>)
    requires Sound(st) && Live(st) == base + locals + [v] && st.fp == |base| && st.frames == below + [f]
    ensures var o := Exec(m, IRet, st);
            && o.Go? && Sound(o.st) && Live(o.st) == base + [v] && o.st.fp == f.fp && o.st.pc == f.ret
            && o.st.frames == below && o.st.out == st.out
  {
    TopLive(st, base + locals, v);
    var s := Drop(st).(sp := st.fp, fp := f.fp, pc := f.ret, frames := below);
    assert st.frames[..|below|] == below;
    assert Live(s) == base by {
      assert st.stack[..|base|] == Live(st)[..|base|];
    }
    PushLive(s, v);
  }

  // The bytes.

  /** The opcodes of binary operators. */
  lemma BinaryOpcodes(code: seq<u8>)
    requires code != []
    ensures code[0] == 0x10 ==> Decode(code, 0) == IBin(Add)
    ensures code[0] == 0x11 ==> Decode(code, 0) == IBin(Sub)
    ensures code[0] == 0x12 ==> Decode(code, 0) == IBin(Mul)
    ensures code[0] == 0x13 ==> Decode(code, 0) == IBin(Div)
    ensures code[0] == 0x14 ==> Decode(code, 0) == IBin(Mod)
    ensures code[0] == 0x16 ==> Decode(code, 0) == IBin(BAnd)
    ensures code[0] == 0x17 ==> Decode(code, 0) == IBin(BOr)
    ensures code[0] == 0x18 ==> Decode(code, 0) == IBin(BXor)
    ensures code[0] == 0x1A ==> Decode(code, 0) == IBin(Shl)
    ensures code[0] == 0x1B ==> Decode(code, 0) == IBin(Shr)
    ensures code[0] == 0x20 ==> Decode(code, 0) == IBin(Eq)
    ensures code[0] == 0x21 ==> Decode(code, 0) == IBin(Ne)
    ensures code[0] == 0x22 ==> Decode(code, 0) == IBin(BinOp.Lt)
    ensures code[0] == 0x23 ==> Decode(code, 0) == IBin(Le)
    ensures code[0] == 0x24 ==> Decode(code, 0) == IBin(BinOp.Gt)
    ensures code[0] == 0x25 ==> Decode(code, 0) == IBin(Ge)
    ensures code[0] == 0x28 ==> Decode(code, 0) == IBin(LAnd)
    ensures code[0] == 0x29 ==> Decode(code, 0) == IBin(LOr)
  {
    hide WordAt;
  }

  /** The other opcodes without operand. */
  lemma PlainOpcodes(code: seq<u8>)
    requires code != []
    ensures code[0] == 0x03 ==> Decode(code, 0) == IPop
    ensures code[0] == 0x04 ==> Decode(code, 0) == IDup
    ensures code[0] == 0x05 ==> Decode(code, 0) == ISwap
    ensures code[0] == 0x06 ==> Decode(code, 0) == IOver
    ensures code[0] == 0x15 ==> Decode(code, 0) == IUn(Neg)
    ensures code[0] == 0x19 ==> Decode(code, 0) == IUn(UnOp.BNot)
    ensures code[0] == 0x2A ==> Decode(code, 0) == IUn(UnOp.Not)
    ensures code[0] == 0x34 ==> Decode(code, 0) == IRet
    ensures code[0] == 0x35 ==> Decode(code, 0) == IHalt
    ensures code[0] == 0x50 ==> Decode(code, 0) == IPrint
    ensures code[0] == 0x51 ==> Decode(code, 0) == IPrintNum
    ensures code[0] == 0xC0 ==> Decode(code, 0) == ICast(ToInt)
    ensures code[0] == 0xC1 ==> Decode(code, 0) == ICast(ToBool)
    ensures code[0] == 0x00 || code[0] == 0xFF ==> Decode(code, 0) == ISkip
  {
    hide WordAt;
  }

  /** The opcodes with an operand of two or four bytes, least significant byte first. */
  lemma OperandOpcodes(code: seq<u8>)
    requires |code| >= 5
    ensures var n: u32 :=
              code[1] as int + 0x100 * code[2] as int + 0x1_0000 * code[3] as int + 0x100_0000 * code[4] as int;
            && (code[0] == 0x01 ==> Decode(code, 0) == IPush(if n < 0x8000_0000 then n else n - 0x1_0000_0000))
            && (code[0] == 0x02 ==> Decode(code, 0) == IPushStr(code[1] as int + 0x100 * code[2] as int))
            && (code[0] == 0x30 ==> Decode(code, 0) == IJmp(n))
            && (code[0] == 0x31 ==> Decode(code, 0) == IJz(n))
            && (code[0] == 0x32 ==> Decode(code, 0) == IJnz(n))
            && (code[0] == 0x33 ==> Decode(code, 0) == ICall(n))
            && (code[0] == 0x40 ==> Decode(code, 0) == ILoad(n))
            && (code[0] == 0x41 ==> Decode(code, 0) == IStore(n))
  {
    var n: u32 :=
      code[1] as int + 0x100 * code[2] as int + 0x1_0000 * code[3] as int + 0x100_0000 * code[4] as int;
    assert WordAt(code, 1) == n;
    hide WordAt;
  }
}
