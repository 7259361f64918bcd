/** The virtual machine as the class the program runs: a stack array, a frame array and registers updated in place. */
module HeliosMachine {
  import opened Bits
  import opened HeliosAst
  import opened Wrappers
  import opened HeliosCode
  import opened HeliosVm

  /** How one instruction ended, and how a run ended. */
  datatype How = Continues | Stops | Panics
  datatype Ending = Halted | Timeout | Panicked

  class Vm {
    const code: seq<u8>
    const consts: seq<seq<u8>>
    const stack: array<i32>
    const frames: array<Frame>
    var sp: nat
    var fp: nat
    var pc: nat
    var csp: nat
    var out: seq<u8>
    var steps: nat

    ghost predicate Valid()
      reads this, stack, frames
    {
      && sp <= stack.Length && fp <= stack.Length && csp <= frames.Length == VM_DEPTH
      && forall i :: 0 <= i < csp ==> frames[i].fp <= stack.Length
    }

    ghost function Machine(): Machine {
      HeliosVm.Machine(code, consts)
    }

    ghost function State(): State
      requires Valid()
      reads this, stack, frames
    {
      HeliosVm.State(stack[..], sp, fp, pc, frames[..csp], out)
    }

    constructor (code: seq<u8>, consts: seq<seq<u8>>, slots: nat)
      ensures Valid() && State() == InitState(slots, 0) && steps == 0
      ensures this.code == code && this.consts == consts
      ensures fresh(stack) && fresh(frames)
    {
      this.code, this.consts := code, consts;
      stack := new i32[slots](_ => 0);
      frames := new Frame[VM_DEPTH](_ => Frame(0, 0));
      sp, fp, pc, csp, out, steps := 0, 0, 0, 0, [], 0;
    }

    method Push(v: i32)
      requires Valid()
      modifies `sp, stack
      ensures Valid() && State() == HeliosVm.Push(old(State()), v)
    {
      if sp < stack.Length {
        stack[sp] := v;
        sp := sp + 1;
      }
    }

    method Pop() returns (v: i32)
      requires Valid()
      modifies `sp
      ensures Valid() && v == Top(old(State())) && State() == Drop(old(State()))
    {
      if sp > 0 {
        sp := sp - 1;
        v := stack[sp];
      } else {
        v := 0;
      }
    }

    /** Reading the next byte or word of the code; past its end every byte is 0. */
    method ReadByte() returns (b: u8)
      requires Valid()
      modifies `pc
      ensures Valid() && b == ByteAt(code, old(pc)) && State() == old(State()).(pc := old(pc) + 1)
    {
      b := if pc < |code| then code[pc] else 0;
      pc := pc + 1;
    }

    method ReadWord() returns (w: u32)
      requires Valid()
      modifies `pc
      ensures Valid() && w == WordAt(code, old(pc)) && State() == old(State()).(pc := old(pc) + 4)
    {
      var b0 := ReadByte();
      var b1 := ReadByte();
      var b2 := ReadByte();
      var b3 := ReadByte();
      w := FromLe32(b0, b1, b2, b3);
    }

    method Binary(op: BinOp) returns (how: How)
      requires Valid()
      modifies `sp, stack
      ensures Valid() && Ended(how, BinStep(op, old(State())))
    {
      hide BinVal;
      var b := Pop();
      var a := Pop();
      var v := BinVal(op, a, b);
      if v.Some? {
        Push(v.value);
        how := Continues;
      } else {
        how := Panics;
      }
    }

    /** The state agrees with the outcome of the specification. */
    ghost predicate Ended(how: How, o: Outcome)
      requires Valid()
      reads this, stack, frames
    {
      match o
      case Go(st) => how == Continues && State() == st
      case Stop(st) => how == Stops && State() == st
      case Abort => how == Panics
    }

    method Call(addr: nat) returns (how: How)
      requires Valid()
      modifies this, frames
      ensures Valid() && steps == old(steps) && Ended(how, CallStep(Machine(), addr, old(State())))
    {
      var argc := Pop();
      if addr >= |code| {
        return Stops;
      }
      if sp < ToU32(argc) {
        return Panics;
      }
      if csp < VM_DEPTH {
        frames[csp] := Frame(pc, fp);
        csp := csp + 1;
      }
      fp := sp - ToU32(argc);
      pc := addr;
      how := Continues;
    }

    method Ret() returns (how: How)
      requires Valid()
      modifies this, stack
      ensures Valid() && steps == old(steps) && Ended(how, RetStep(old(State())))
    {
      var v := Pop();
      if csp == 0 {
        return Stops;
      }
      csp := csp - 1;
      sp, fp, pc := fp, frames[csp].fp, frames[csp].ret;
      Push(v);
      how := Continues;
    }

    method Load(slot: nat)
      requires Valid()
      modifies `sp, stack
      ensures Valid() && State() == HeliosVm.Push(old(State()), SlotAt(old(State()), fp + slot))
    {
      var t := fp + slot;
      var v := if t < stack.Length then stack[t] else 0;
      Push(v);
    }

    method Store(slot: nat)
      requires Valid()
      modifies `sp, stack
      ensures Valid() && State() == StoreStep(slot, old(State()))
    {
      var v := Pop();
      var t := fp + slot;
      if t < stack.Length {
        stack[t] := v;
        if t >= sp {
          sp := t + 1;
        }
      }
    }

    /** Executing an opcode whose byte has been read. */
    method Execute(op: u8, ghost m: HeliosVm.Machine, ghost s0: HeliosVm.State) returns (how: How)
      requires Valid() && m == Machine() && s0.pc < |code| && op == code[s0.pc] && State() == s0.(pc := s0.pc + 1)
      modifies this, stack, frames
      ensures Valid() && steps == old(steps) && Ended(how, Step(m, s0))
    {
      hide BinStep, CallStep, RetStep, StoreStep, WordAt, I32Text, PrintText, UnVal, CastVal, BinOfByte, Unassigned;
      how := Continues;
      if BinOfByte(op).Some? {
        how := Binary(BinOfByte(op).value);
      } else if op == PUSH {
        var w := ReadWord();
        Push(ToI32(w));
      } else if op == PUSHSTR {
        var lo := ReadByte();
        var hi := ReadByte();
        Push(FromLe16(lo, hi) - 0x8000_0000);
      } else if op == POP {
        var _ := Pop();
      } else if op == DUP {
        Push(if sp > 0 then stack[sp - 1] else 0);
      } else if op == SWAP {
        var a := Pop();
        var b := Pop();
        Push(a);
        Push(b);
      } else if op == OVER {
        if sp >= 2 {
          Push(stack[sp - 2]);
        }
      } else if op == NEG || op == BNOT || op == NOT {
        var a := Pop();
        Push(UnVal(if op == NEG then UnOp.Neg else if op == BNOT then UnOp.BNot else UnOp.Not, a));
      } else if op == CASTINT {
      } else if op == CASTBOOL {
        var a := Pop();
        Push(CastVal(ToBool, a));
      } else {
        how := Control(op, m, s0);
      }
    }

    method Control(op: u8, ghost m: HeliosVm.Machine, ghost s0: HeliosVm.State) returns (how: How)
      requires Valid() && m == Machine() && s0.pc < |code| && op == code[s0.pc] && State() == s0.(pc := s0.pc + 1)
      requires BinOfByte(op).None?
      requires op !in {PUSH, PUSHSTR, POP, DUP, SWAP, OVER, NEG, BNOT, NOT, CASTINT, CASTBOOL}
      modifies this, stack, frames
      ensures Valid() && steps == old(steps) && Ended(how, Step(m, s0))
    {
      hide BinStep, CallStep, RetStep, StoreStep, WordAt, I32Text, PrintText, UnVal, CastVal, BinOfByte, Unassigned;
      how := Continues;
      if op == LOADLOCAL {
        var w := ReadWord();
        Load(w);
      } else if op == STORELOCAL {
        var w := ReadWord();
        Store(w);
      } else if op == PRINT {
        var v := Pop();
        out := out + PrintText(consts, v);
      } else if op == PRINTNUM {
        var v := Pop();
        out := out + I32Text(v);
      } else {
        how := Transfer(op, m, s0);
      }
    }

    /** The opcodes that move the program counter, and those that do nothing or are not part of this model. */
    method Transfer(op: u8, ghost m: HeliosVm.Machine, ghost s0: HeliosVm.State) returns (how: How)
      requires Valid() && m == Machine() && s0.pc < |code| && op == code[s0.pc] && State() == s0.(pc := s0.pc + 1)
      requires BinOfByte(op).None?
      requires op !in {PUSH, PUSHSTR, POP, DUP, SWAP, OVER, NEG, BNOT, NOT, CASTINT, CASTBOOL}
      requires op !in {LOADLOCAL, STORELOCAL, PRINT, PRINTNUM}
      modifies this, stack, frames
      ensures Valid() && steps == old(steps) && Ended(how, Step(m, s0))
    {
      hide BinStep, CallStep, RetStep, StoreStep, WordAt, I32Text, PrintText, UnVal, CastVal, BinOfByte, Unassigned;
      how := Continues;
      if op == JMP {
        var a := ReadWord();
        pc := a;
      } else if op == JZ || op == JNZ {
        var a := ReadWord();
        var v := Pop();
        if (v == 0) == (op == JZ) {
          pc := a;
        }
      } else if op == CALL {
        var a := ReadWord();
        how := Call(a);
      } else if op == RET {
        how := Ret();
      } else if op == HALT {
        how := Stops;
      } else if op == NOP || Unassigned(op) {
      } else {
        how := Panics;
      }
    }

    /** Running from an address until the program ends, panics or uses up its steps. The result is
        whatever is left on top of the stack. */
    method Run(entry: nat) returns (ending: Ending, result: i32)
      requires Valid() && steps == 0
      modifies this, stack, frames
      ensures Valid()
      ensures match RunFrom(Machine(), old(State()).(pc := entry), VM_MAX_STEPS - 1)
              case Finished(s) => ending == Halted && State() == s && result == Top(s)
              case TimedOut(s) => ending == Timeout && State() == s && result == Top(s)
              case Aborted => ending == Panicked
    {
      hide Step;
      pc := entry;
      ghost var start := State();
      ending := Halted;
      while true
        invariant Valid() && steps < VM_MAX_STEPS && ending == Halted
        invariant RunFrom(Machine(), State(), VM_MAX_STEPS - 1 - steps) == RunFrom(Machine(), start, VM_MAX_STEPS - 1)
        decreases VM_MAX_STEPS - steps
      {
        ghost var s0 := State();
        if pc >= |code| {
          break;
        }
        steps := steps + 1;
        if steps >= VM_MAX_STEPS {
          ending := Timeout;
          break;
        }
        var op := ReadByte();
        var how := Execute(op, Machine(), s0);
        if how == Stops {
          break;
        }
        if how == Panics {
          return Panicked, 0;
        }
      }
      result := if sp > 0 then stack[sp - 1] else 0;
    }
  }
}
