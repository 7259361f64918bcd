/**
 * The Helios virtual machine as a function on machine states: one instruction, several, and a run
 * with an instruction budget.
 */
module HeliosVm {
  import opened Bits
  import opened HeliosAst
  import opened Wrappers
  import opened HeliosCode

  const VM_DEPTH: nat := 256
  const VM_MAX_STEPS: nat := 50_000_000

  datatype Frame = Frame(ret: nat, fp: nat)

  /** The stack has a fixed number of slots; `sp` counts the live ones. */
  datatype State = State(stack: seq<i32>, sp: nat, fp: nat, pc: nat, frames: seq<Frame>, out: seq<u8>)

  datatype Machine = Machine(code: seq<u8>, pool: seq<seq<u8>>)

  /** `Abort` is a Rust panic, or an opcode whose effect is outside this model. */
  datatype Outcome = Go(st: State) | Stop(st: State) | Abort

  function InitState(cap: nat, entry: nat): State {
    State(seq(cap, _ => 0), 0, 0, entry, [], [])
  }

  function ByteAt(code: seq<u8>, i: nat): u8 {
    if i < |code| then code[i] else 0
  }

  function WordAt(code: seq<u8>, i: nat): u32 {
    FromLe32(ByteAt(code, i), ByteAt(code, i + 1), ByteAt(code, i + 2), ByteAt(code, i + 3))
  }

  /** A push onto a full stack is dropped and a pop from an empty one gives 0. */
  function Push(st: State, v: i32): State {
    if st.sp < |st.stack| then st.(stack := st.stack[st.sp := v], sp := st.sp + 1) else st
  }

  function Top(st: State): i32 {
    if 0 < st.sp <= |st.stack| then st.stack[st.sp - 1] else 0
  }

  function Drop(st: State): State {
    if st.sp > 0 then st.(sp := st.sp - 1) else st
  }

  function SlotAt(st: State, i: nat): i32 {
    if i < |st.stack| then st.stack[i] else 0
  }

  function BinOfByte(b: u8): Option<BinOp> {
    match b
    case 0x10 => Some(Add)
    case 0x11 => Some(Sub)
    case 0x12 => Some(Mul)
    case 0x13 => Some(Div)
    case 0x14 => Some(Mod)
    case 0x16 => Some(BAnd)
    case 0x17 => Some(BOr)
    case 0x18 => Some(BXor)
    case 0x1A => Some(Shl)
    case 0x1B => Some(Shr)
    case 0x20 => Some(Eq)
    case 0x21 => Some(Ne)
    case 0x22 => Some(Lt)
    case 0x23 => Some(Le)
    case 0x24 => Some(Gt)
    case 0x25 => Some(Ge)
    case 0x28 => Some(LAnd)
    case 0x29 => Some(LOr)
    case _ => None
  }

  /** Bytes that name no opcode; the machine skips them. */
  predicate Unassigned(b: u8) {
    || b == 0x00 || 0x07 <= b <= 0x0F || 0x1C <= b <= 0x1F || 0x26 <= b <= 0x27
    || 0x2B <= b <= 0x2F || 0x36 <= b <= 0x3F || 0x48 <= b <= 0x4F || 0x55 <= b <= 0x61
    || 0x66 <= b <= 0x6F || 0x9D <= b <= 0x9F || 0xAC <= b <= 0xAF || 0xBB <= b <= 0xBF
    || 0xC2 <= b <= 0xCF || 0xDE <= b <= 0xDF || 0xEB <= b <= 0xEC || 0xF0 <= b <= 0xFE
  }

  function BinStep(op: BinOp, st: State): Outcome {
    var b := Top(st);
    var st1 := Drop(st);
    var v := BinVal(op, Top(st1), b);
    if v.None? then Abort else Go(Push(Drop(st1), v.value))
  }

  function CallStep(m: Machine, addr: nat, st: State): Outcome {
    var argc := ToU32(Top(st));
    var st1 := Drop(st);
    if addr >= |m.code| then Stop(st1)
    else if st1.sp < argc then Abort
    else
      var frames := if |st.frames| < VM_DEPTH then st.frames + [Frame(st.pc, st.fp)] else st.frames;
      Go(st1.(frames := frames, fp := st1.sp - argc, pc := addr))
  }

  function RetStep(st: State): Outcome {
    var v := Top(st);
    var st1 := Drop(st);
    if st.frames == [] then Stop(st1)
    else
      var k := |st.frames| - 1;
      Go(Push(st1.(sp := st.fp, fp := st.frames[k].fp, pc := st.frames[k].ret, frames := st.frames[..k]), v))
  }

  function StoreStep(i: nat, st: State): State {
    var v := Top(st);
    var st1 := Drop(st);
    var t := st.fp + i;
    if t < |st.stack| then st1.(stack := st1.stack[t := v], sp := if t >= st1.sp then t + 1 else st1.sp) else st1
  }

  /** The constant a tagged value names; printing shows it up to its first NUL. */
  function ConstText(pool: seq<seq<u8>>, v: i32): seq<u8> {
    var i := ToU32(v) % 0x8000;
    if i < |pool| then UpToNul(pool[i]) else []
  }

  function PrintText(pool: seq<seq<u8>>, v: i32): seq<u8> {
    if v < 0 then ConstText(pool, v) else I32Text(v)
  }

  /** Decoded instructions. `Skip` stands for `nop` and bytes that name no opcode, `Foreign` for
      opcodes whose effect is outside this model. */
  datatype Instr =
    | IPush(n: i32) | IPushStr(idx: u16) | IPop | IDup | ISwap | IOver
    | IBin(bop: BinOp) | IUn(uop: UnOp) | ICast(t: CastTarget)
    | IJmp(addr: u32) | IJz(addr: u32) | IJnz(addr: u32) | ICall(addr: u32) | IRet | IHalt
    | ILoad(slot: u32) | IStore(slot: u32)
    | IPrint | IPrintNum
    | ISkip | IForeign

  function Decode(code: seq<u8>, pc: nat): Instr
    requires pc < |code|
  {
    var op := code[pc];
    if BinOfByte(op).Some? then IBin(BinOfByte(op).value)
    else if op == PUSH then IPush(ToI32(WordAt(code, pc + 1)))
    else if op == PUSHSTR then IPushStr(FromLe16(ByteAt(code, pc + 1), ByteAt(code, pc + 2)))
    else if op == POP then IPop
    else if op == DUP then IDup
    else if op == SWAP then ISwap
    else if op == OVER then IOver
    else if op == NEG then IUn(UnOp.Neg)
    else if op == BNOT then IUn(UnOp.BNot)
    else if op == NOT then IUn(UnOp.Not)
    else if op == JMP then IJmp(WordAt(code, pc + 1))
    else if op == JZ then IJz(WordAt(code, pc + 1))
    else if op == JNZ then IJnz(WordAt(code, pc + 1))
    else if op == CALL then ICall(WordAt(code, pc + 1))
    else if op == RET then IRet
    else if op == HALT then IHalt
    else if op == LOADLOCAL then ILoad(WordAt(code, pc + 1))
    else if op == STORELOCAL then IStore(WordAt(code, pc + 1))
    else if op == PRINT then IPrint
    else if op == PRINTNUM then IPrintNum
    else if op == CASTINT then ICast(ToInt)
    else if op == CASTBOOL then ICast(ToBool)
    else if op == NOP || Unassigned(op) then ISkip
    else IForeign
  }

  /** The opcode byte and the immediate bytes after it. */
  function Width(i: Instr): nat {
    match i
    case IPush(_) | IJmp(_) | IJz(_) | IJnz(_) | ICall(_) | ILoad(_) | IStore(_) => 5
    case IPushStr(_) => 3
    case _ => 1
  }

  /** The effect of an instruction, with `pc` already past it. */
  function Exec(m: Machine, i: Instr, st: State): Outcome {
    match i
    case IPush(n) => Go(Push(st, n))
    case IPushStr(idx) => Go(Push(st, idx - 0x8000_0000))
    case IPop => Go(Drop(st))
    case IDup => Go(Push(st, Top(st)))
    case ISwap => Go(Push(Push(Drop(Drop(st)), Top(st)), Top(Drop(st))))
    case IOver => Go(if st.sp >= 2 then Push(st, SlotAt(st, st.sp - 2)) else st)
    case IBin(op) => BinStep(op, st)
    case IUn(op) => Go(Push(Drop(st), UnVal(op, Top(st))))
    case ICast(t) => if t.ToInt? then Go(st) else Go(Push(Drop(st), CastVal(t, Top(st))))
    case IJmp(a) => Go(st.(pc := a))
    case IJz(a) => Go(Drop(if Top(st) == 0 then st.(pc := a) else st))
    case IJnz(a) => Go(Drop(if Top(st) != 0 then st.(pc := a) else st))
    case ICall(a) => CallStep(m, a, st)
    case IRet => RetStep(st)
    case IHalt => Stop(st)
    case ILoad(slot) => Go(Push(st, SlotAt(st, st.fp + slot)))
    case IStore(slot) => Go(StoreStep(slot, st))
    case IPrint => Go(Drop(st).(out := st.out + PrintText(m.pool, Top(st))))
    case IPrintNum => Go(Drop(st).(out := st.out + I32Text(Top(st))))
    case ISkip => Go(st)
    case IForeign => Abort
  }

  /** One instruction. */
  function Step(m: Machine, s: State): Outcome {
    if s.pc >= |m.code| then Stop(s)
    else
      var i := Decode(m.code, s.pc);
      Exec(m, i, s.(pc := s.pc + Width(i)))
  }

  /** n instructions in a row, none of which stops the machine. */
  function Steps(m: Machine, s: State, n: nat): Option<State>
    decreases n
  {
    if n == 0 then Some(s)
    else
      var o := Step(m, s);
      if o.Go? then Steps(m, o.st, n - 1) else None
  }

  /** A run with an instruction budget. `TimedOut` keeps the state in which the budget ended. */
  datatype RunResult = Finished(st: State) | TimedOut(st: State) | Aborted

  function RunFrom(m: Machine, s: State, budget: nat): RunResult
    decreases budget
  {
    if s.pc >= |m.code| then Finished(s)
    else if budget == 0 then TimedOut(s)
    else
      var o := Step(m, s);
      if o.Go? then RunFrom(m, o.st, budget - 1)
      else if o.Stop? then Finished(o.st)
      else Aborted
  }

  lemma {:induction false} StepsCompose(m: Machine, s: State, a: nat, s1: State, b: nat, s2: State)
    requires Steps(m, s, a) == Some(s1) && Steps(m, s1, b) == Some(s2)
    ensures Steps(m, s, a + b) == Some(s2)
    decreases a
  {
    hide Step;
    if a > 0 {
      StepsCompose(m, Step(m, s).st, a - 1, s1, b, s2);
    }
  }

  lemma StepAtEnd(m: Machine, s: State)
    requires s.pc >= |m.code|
    ensures Step(m, s) == Stop(s)
  {
  }

  /** Any budget that covers the instructions of a finishing run gives its result. */
  lemma {:induction false} RunOfSteps(m: Machine, s: State, n: nat, s1: State, budget: nat)
    requires Steps(m, s, n) == Some(s1) && Step(m, s1).Stop? && n < budget
    ensures RunFrom(m, s, budget) == Finished(Step(m, s1).st)
    decreases n
  {
    hide Step;
    if s.pc >= |m.code| { StepAtEnd(m, s); }
    if n > 0 {
      RunOfSteps(m, Step(m, s).st, n - 1, s1, budget - 1);
    }
  }

  /** An instruction takes back nothing that was printed. */
  lemma StepAppends(m: Machine, s: State)
    ensures !Step(m, s).Abort? ==> s.out <= Step(m, s).st.out
  {
    hide Decode, PrintText, I32Text, BinVal, Wrap32;
  }

  lemma {:induction false} RunAppends(m: Machine, s: State, budget: nat)
    ensures !RunFrom(m, s, budget).Aborted? ==> s.out <= RunFrom(m, s, budget).st.out
    decreases budget
  {
    hide Step;
    StepAppends(m, s);
    if s.pc < |m.code| && budget > 0 && Step(m, s).Go? {
      RunAppends(m, Step(m, s).st, budget - 1);
    }
  }

  /** A run with a smaller budget ends the same way, or is cut off with part of the output. */
  lemma {:induction false} CutShort(m: Machine, s: State, small: nat, large: nat)
    requires small <= large && RunFrom(m, s, large).Finished?
    ensures var r := RunFrom(m, s, small);
            r == RunFrom(m, s, large) || (r.TimedOut? && r.st.out <= RunFrom(m, s, large).st.out)
    decreases small
  {
    hide Step;
    if s.pc < |m.code| {
      if small == 0 {
        RunAppends(m, s, large);
      } else if Step(m, s).Go? {
        CutShort(m, Step(m, s).st, small - 1, large - 1);
      }
    }
  }
}
