/**
 * Safety of every step of compiled code, whether the program ends or not: the program counter is always at the start
 * of an emitted instruction, no pop finds the frame's temporaries exhausted, saved frames nest, and the slots of a
 * frame change only by its own assignments.
 */
module HeliosSafety {
  import opened Bits
  import opened HeliosAst
  import opened Wrappers
  import opened HeliosCode
  import opened HeliosVm
  import opened HeliosLink
  import opened HeliosCorrect
  import opened HeliosNotes
  import opened HeliosTyping

  function NotedProgram(p: Program): Noted {
    Noted(LinkedProgram(p), FnsNotes(p.fns, p.consts))
  }

  // The whole program agrees with its notes.

  lemma {:induction false} FnPiece(c: Noted, fns: seq<FnDef>, consts: seq<(string, i32)>, pool: seq<seq<u8>>, i: nat)
    requires i < |fns| && Has(c, 0, FnsCells(fns, consts, pool), FnsNotes(fns, consts))
    ensures var a := FnsLen(fns[..i]);
            Has(c, a, FnCells(Names(SlotsOf(consts, fns[i]), pool, consts), fns[i], a), FnNotes(consts, fns[i]))
  {
    hide Has, FnCells, FnNotes, SlotsOf;
    var k := |fns| - 1;
    var a := FnsLen(fns[..k]);
    Split(c, 0, FnsCells(fns[..k], consts, pool), FnCells(Names(SlotsOf(consts, fns[k]), pool, consts), fns[k], a),
          FnsNotes(fns[..k], consts), FnNotes(consts, fns[k]));
    if i < k {
      FnPiece(c, fns[..k], consts, pool, i);
      assert fns[..k][..i] == fns[..i];
    }
  }

  lemma FnFirst(consts: seq<(string, i32)>, f: FnDef)
    ensures FnNotes(consts, f) != [] && FnNotes(consts, f)[0] == Start(BoundsOf(consts, f), 0, None)
  {
    StmtsFirst(BoundsOf(consts, f), f.body);
  }

  lemma {:induction false} FnChecks(c: Noted, f: FnDef, a: nat)
    requires var n := NamesOf(c.l, f);
             var b := BoundsOf(c.l.p.consts, f);
             && Scope(c, n, b) && WfFn(c.l.p, f) && CoversStmts(n, f.body)
             && Has(c, a, FnCells(n, f, a), FnNotes(c.l.p.consts, f))
    requires FrameNeed(c.l.p.consts, f) <= c.l.k
    ensures RangeChecks(c, a, a + FnLen(f))
  {
    hide Has, RangeChecks, Follows, Enters, StmtsCells, StmtsNotes, WfStmts, CoversStmts, StmtsDepth, OpImm, Ins,
         SlotsOf, StmtsLen;
    var n, b := NamesOf(c.l, f), BoundsOf(c.l.p.consts, f);
    var p := a + StmtsLen(f.body);
    var cb, nb := StmtsCells(n, f.body, a, At(0), At(0)), StmtsNotes(b, f.body);
    Split(c, a, cb + OpImm(PUSH, 0), Op(RET), nb + Ins(b, 0, 5), Ins(b, 1, 1));
    Split(c, a, cb, OpImm(PUSH, 0), nb, Ins(b, 0, 5));
    FirstFollows(c, p, OpImm(PUSH, 0), Ins(b, 0, 5), b, 0);
    FirstFollows(c, p + 5, Op(RET), Ins(b, 1, 1), b, 1);
    PushFollows(c, p + 5, b, 1, 0);
    StmtsChecks(c, n, b, f.body, a, 0, 0, false);
    CheckPush(c, p, 0, b, 0);
    CheckRet(c, p + 5, b);
    RangesJoin(c, a, p, p + 5);
    RangesJoin(c, a, p + 5, p + 6);
  }

  /** A program that fits in memory: addresses, string tags and frames are in range. */
  ghost predicate Loadable(p: Program) {
    && WfProgram(p)
    && |ProgramImage(p).code| < 0x1_0000_0000 && |ProgramImage(p).pool| <= 0x8000
    && MaxFrame(p.consts, p.fns) < 0x8000_0000
  }

  lemma ProgramHas(p: Program)
    ensures var c := NotedProgram(p);
            Has(c, 0, FnsCells(p.fns, p.consts, PoolOf(p.fns, p.consts)), FnsNotes(p.fns, p.consts))
  {
    hide FnsCells, PoolOf, FnsNotes, Entries, MaxFrame;
  }

  lemma ProgramEnters(p: Program)
    requires Loadable(p)
    ensures Enters(NotedProgram(p))
  {
    hide Has, FnsCells, FnCells, FnNotes, FnsNotes, SlotsOf, FnsLen, Entries, PoolOf, FindFn, FindEntry, MaxFrame,
         Follows;
    var c := NotedProgram(p);
    ProgramHas(p);
    forall f
      ensures FnEnters(c, f)
    {
      if FindFn(p.fns, f).Some? {
        FirstFn(p.fns, f);
        var i :| 0 <= i < |p.fns| && IsFirst(p.fns, f, i);
        var a := FnsLen(p.fns[..i]);
        EntryOfFn(p, f, i);
        FnPiece(c, p.fns, p.consts, PoolOf(p.fns, p.consts), i);
        FnFirst(p.consts, p.fns[i]);
        FirstFollows(c, a, FnCells(NamesOf(c.l, p.fns[i]), p.fns[i], a), FnNotes(p.consts, p.fns[i]),
                     BoundsOf(p.consts, p.fns[i]), 0);
      }
    }
  }

  lemma OneFnChecks(p: Program, i: nat)
    requires Loadable(p) && i < |p.fns|
    ensures var a := FnsLen(p.fns[..i]); RangeChecks(NotedProgram(p), a, a + FnLen(p.fns[i]))
  {
    hide Has, RangeChecks, FnsCells, FnCells, FnNotes, FnsNotes, SlotsOf, FnsLen, FnLen, Entries, PoolOf, FrameNeed,
         MaxFrame, CoversStmts, Enters, WfStmts;
    var c, f := NotedProgram(p), p.fns[i];
    ProgramHas(p);
    ProgramEnters(p);
    FnPiece(c, p.fns, p.consts, PoolOf(p.fns, p.consts), i);
    BodyCovered(p, i);
    ParamsAreSlots(p.consts, f);
    FrameBound(p.consts, p.fns, i);
    NotesFill(p);
    FnChecks(c, f, FnsLen(p.fns[..i]));
  }

  lemma NotesFill(p: Program)
    ensures |NotedProgram(p).ns| == |NotedProgram(p).l.m.code| == FnsLen(p.fns)
  {
  }

  /** The instructions at all noted addresses agree with the notes. */
  lemma {:induction false} ProgramChecks(p: Program, m: nat)
    requires Loadable(p) && m <= |p.fns|
    ensures RangeChecks(NotedProgram(p), 0, FnsLen(p.fns[..m]))
  {
    hide FnLen, FnsNotes, FnsCells, Checks, MaxFrame, Entries, PoolOf;
    NotesFill(p);
    if m > 0 {
      ProgramChecks(p, m - 1);
      OneFnChecks(p, m - 1);
      assert p.fns[..m][..m - 1] == p.fns[..m - 1];
      RangesJoin(NotedProgram(p), 0, FnsLen(p.fns[..m - 1]), FnsLen(p.fns[..m]));
    }
  }

  // States that agree with the notes.

  ghost predicate Typed(c: Noted) {
    RangeChecks(c, 0, |c.ns|)
  }

  /** Saved frames nest: the callee's frame begins where the temporaries of its caller end, less the result that the
      caller will find there. */
  ghost predicate FramesOk(c: Noted, frames: seq<Frame>, fp: nat) {
    if frames == [] then fp == 0 else
    var k := |frames| - 1;
    var fr := frames[k];
    && fr.ret < |c.ns| && c.ns[fr.ret].Start? && c.ns[fr.ret].top == None && c.ns[fr.ret].depth >= 1
    && fr.fp + c.ns[fr.ret].b.lo + c.ns[fr.ret].depth - 1 <= fp <= fr.fp + c.ns[fr.ret].b.hi + c.ns[fr.ret].depth - 1
    && FramesOk(c, frames[..k], fr.fp)
  }

  /** The machine is at the start of an emitted instruction, its stack pointer is above the parameters and the
      temporaries noted there and not above the slots and these temporaries, and its frames nest. */
  ghost predicate Sound(c: Noted, st: State) {
    && |st.frames| <= VM_DEPTH && StackNeed(c.l.k, VM_DEPTH) <= |st.stack| < 0x8000_0000
    && st.pc < |c.ns| && c.ns[st.pc].Start?
    && st.fp + c.ns[st.pc].b.lo + c.ns[st.pc].depth <= st.sp <= st.fp + c.ns[st.pc].b.hi + c.ns[st.pc].depth
    && (c.ns[st.pc].top.Some? ==> c.ns[st.pc].depth > 0 && Top(st) == c.ns[st.pc].top.value)
    && FramesOk(c, st.frames, st.fp)
  }

  lemma {:induction false} NeedGrows(k: nat, a: nat, b: nat)
    requires a <= b
    ensures StackNeed(k, a) <= StackNeed(k, b)
  {
    if a < b {
      NeedGrows(k, a, b - 1);
    }
  }

  /** Nested frames take at most k slots each. */
  lemma {:induction false} FrameHeight(c: Noted, frames: seq<Frame>, fp: nat)
    requires Typed(c) && FramesOk(c, frames, fp)
    ensures fp + c.l.k <= StackNeed(c.l.k, |frames|)
  {
    hide Decode, Follows, FollowsPush;
    if frames != [] {
      var k := |frames| - 1;
      FrameHeight(c, frames[..k], frames[k].fp);
      assert Checks(c, frames[k].ret);
    }
  }

  /** There is room for everything the current frame may hold. */
  lemma RoomLeft(c: Noted, st: State)
    requires Typed(c) && Sound(c, st)
    ensures st.fp + c.l.k <= |st.stack| && Checks(c, st.pc) && st.sp <= |st.stack|
    ensures c.ns[st.pc].b.hi + c.ns[st.pc].depth <= c.l.k
  {
    hide Decode, Follows, FollowsPush, StackNeed;
    FrameHeight(c, st.frames, st.fp);
    NeedGrows(c.l.k, |st.frames|, VM_DEPTH);
    assert Checks(c, st.pc);
  }

  /** The slots of the frame that hold values now: from the frame's start up to its temporaries. */
  function Held(c: Noted, st: State): int
    requires st.pc < |c.ns| && c.ns[st.pc].Start?
  {
    st.sp - c.ns[st.pc].depth
  }

  /** How the frames move in one step: a call saves the frame with the slots it holds, a return goes back to the
      saved frame and what it held, and any other instruction stays in the frame and gives up no slot of it. A store
      puts its value into a slot held from then on. */
  ghost predicate FrameStep(c: Noted, st: State, i: Instr, st': State)
    requires st.pc < |c.ns| && c.ns[st.pc].Start? && st'.pc < |c.ns| && c.ns[st'.pc].Start?
  {
    match i
    case ICall(_) =>
      && st'.frames == st.frames + [Frame(st.pc + 5, st.fp)] && st.pc + 5 < |c.ns| && c.ns[st.pc + 5].Start?
      && st'.fp - (c.ns[st.pc + 5].depth - 1) == Held(c, st)
    case IRet =>
      && st.frames != []
      && var k := |st.frames| - 1;
         st'.frames == st.frames[..k] && st'.fp == st.frames[k].fp && st'.pc == st.frames[k].ret && st'.sp == st.fp + 1
    case IStore(slot) =>
      && st'.frames == st.frames && st'.fp == st.fp && Held(c, st') >= Held(c, st)
      && st.fp + slot < Held(c, st') && st.fp + slot < |st'.stack| && st'.stack[st.fp + slot] == Top(st)
    case _ => st'.frames == st.frames && st'.fp == st.fp && Held(c, st') == Held(c, st)
  }

  /** What one step does to a sound state: it stays sound and changes no slot that holds a value, of this frame or a
      caller's, except by a store of this frame to that slot, or by leaving this frame. */
  ghost predicate SafeStep(c: Noted, st: State, o: Outcome)
    requires st.pc < |c.l.m.code| == |c.ns| && c.ns[st.pc].Start?
  {
    var i := Decode(c.l.m.code, st.pc);
    match o
    case Go(st') =>
      && Sound(c, st') && |st'.stack| == |st.stack| && FrameStep(c, st, i, st')
      && forall j :: 0 <= j < Held(c, st) && j < |st.stack| ==>
           st'.stack[j] == st.stack[j] || (i.IStore? && j == st.fp + i.slot) || (i.IRet? && j >= st.fp)
    case Stop(_) => i.IRet? && st.frames == []
    case Abort => i.IBin? && st.sp >= 2 && st.sp <= |st.stack| && BinVal(i.bop, st.stack[st.sp - 2], st.stack[st.sp - 1]).None?
  }

  lemma SoundAt(c: Noted, st: State, st': State, d: nat)
    requires Typed(c) && Sound(c, st) && Follows(c.ns, st'.pc, c.ns[st.pc].b, d)
    requires st'.fp == st.fp && st'.frames == st.frames && |st'.stack| == |st.stack|
    requires st'.sp + c.ns[st.pc].depth == st.sp + d
    ensures Sound(c, st')
  {
    hide FramesOk, StackNeed, RangeChecks;
  }

  lemma StepOf(c: Noted, st: State)
    requires st.pc < |c.l.m.code|
    ensures var i := Decode(c.l.m.code, st.pc);
            Step(c.l.m, st) == Exec(c.l.m, i, st.(pc := st.pc + Width(i)))
  {
    hide Decode, Exec;
  }

  lemma NoteFits(c: Noted, pc: nat)
    requires Typed(c)
    ensures pc < |c.ns| && c.ns[pc].Start? ==>
              c.ns[pc].b.lo <= c.ns[pc].b.hi && c.ns[pc].b.hi + c.ns[pc].depth <= c.l.k
  {
    hide Decode;
    if pc < |c.ns| && c.ns[pc].Start? {
      assert Checks(c, pc);
    }
  }

  /** Pushing one value. */
  lemma SafePush(c: Noted, st: State)
    requires Typed(c) && Sound(c, st) && |c.l.m.code| == |c.ns|
    requires var i := Decode(c.l.m.code, st.pc); i.IPush? || i.IPushStr? || i.ILoad? || i.IDup?
    ensures SafeStep(c, st, Step(c.l.m, st))
  {
    hide Decode, FramesOk, StackNeed, RangeChecks, Step;
    RoomLeft(c, st);
    StepOf(c, st);
    NoteFits(c, st.pc + Width(Decode(c.l.m.code, st.pc)));
    var st' := Step(c.l.m, st).st;
    if !Decode(c.l.m.code, st.pc).IPush? {
      SoundAt(c, st, st', c.ns[st.pc].depth + 1);
    }
  }

  /** Taking one value. */
  lemma SafePop(c: Noted, st: State)
    requires Typed(c) && Sound(c, st) && |c.l.m.code| == |c.ns|
    requires var i := Decode(c.l.m.code, st.pc); i.IPop? || i.IPrint? || i.IPrintNum? || i.IJz?
    ensures SafeStep(c, st, Step(c.l.m, st))
  {
    hide Decode, FramesOk, StackNeed, RangeChecks, Step, PrintText, I32Text;
    RoomLeft(c, st);
    StepOf(c, st);
    var st' := Step(c.l.m, st).st;
    SoundAt(c, st, st', c.ns[st.pc].depth - 1);
  }

  /** Replacing values, and jumping. */
  lemma SafeOp(c: Noted, st: State)
    requires Typed(c) && Sound(c, st) && |c.l.m.code| == |c.ns|
    requires var i := Decode(c.l.m.code, st.pc); i.IUn? || i.ICast? || i.IJmp?
    ensures SafeStep(c, st, Step(c.l.m, st))
  {
    hide Decode, FramesOk, StackNeed, RangeChecks, Step, UnVal, CastVal;
    RoomLeft(c, st);
    StepOf(c, st);
    var st' := Step(c.l.m, st).st;
    SoundAt(c, st, st', c.ns[st.pc].depth);
  }

  lemma SafeBin(c: Noted, st: State)
    requires Typed(c) && Sound(c, st) && |c.l.m.code| == |c.ns| && Decode(c.l.m.code, st.pc).IBin?
    ensures SafeStep(c, st, Step(c.l.m, st))
  {
    hide Decode, FramesOk, StackNeed, RangeChecks, Step, BinVal;
    RoomLeft(c, st);
    StepOf(c, st);
    if Step(c.l.m, st).Go? {
      var st' := Step(c.l.m, st).st;
      SoundAt(c, st, st', c.ns[st.pc].depth - 1);
    }
  }

  /** A store to a slot that holds no value yet makes the frame longer. */
  lemma SafeStore(c: Noted, st: State)
    requires Typed(c) && Sound(c, st) && |c.l.m.code| == |c.ns| && Decode(c.l.m.code, st.pc).IStore?
    ensures SafeStep(c, st, Step(c.l.m, st))
  {
    hide Decode, FramesOk, StackNeed, RangeChecks, Step;
    RoomLeft(c, st);
    StepOf(c, st);
  }

  lemma SafeCall(c: Noted, st: State)
    requires Typed(c) && Sound(c, st) && |c.l.m.code| == |c.ns| && Decode(c.l.m.code, st.pc).ICall?
    requires |st.frames| < VM_DEPTH
    ensures SafeStep(c, st, Step(c.l.m, st))
  {
    hide Decode, StackNeed, RangeChecks, Step;
    RoomLeft(c, st);
    StepOf(c, st);
    NoteFits(c, Decode(c.l.m.code, st.pc).addr);
    var st' := Step(c.l.m, st).st;
    assert st'.frames[..|st'.frames| - 1] == st.frames;
  }

  lemma SafeRet(c: Noted, st: State)
    requires Typed(c) && Sound(c, st) && |c.l.m.code| == |c.ns| && Decode(c.l.m.code, st.pc).IRet?
    ensures SafeStep(c, st, Step(c.l.m, st))
  {
    hide Decode, StackNeed, RangeChecks, Step;
    RoomLeft(c, st);
    StepOf(c, st);
  }

  /** One step from a sound state is safe, unless it is a call when all 256 frames are in use. */
  lemma StepIsSafe(c: Noted, st: State)
    requires Typed(c) && Sound(c, st) && |c.l.m.code| == |c.ns|
    requires Decode(c.l.m.code, st.pc).ICall? ==> |st.frames| < VM_DEPTH
    ensures SafeStep(c, st, Step(c.l.m, st))
  {
    hide Decode, FramesOk, StackNeed, RangeChecks, Step, SafeStep, Sound;
    RoomLeft(c, st);
    SoundPc(c, st);
    match Decode(c.l.m.code, st.pc) {
      case IPush(_) => SafePush(c, st);
      case IPushStr(_) => SafePush(c, st);
      case ILoad(_) => SafePush(c, st);
      case IDup => SafePush(c, st);
      case IPop => SafePop(c, st);
      case IPrint => SafePop(c, st);
      case IPrintNum => SafePop(c, st);
      case IJz(_) => SafePop(c, st);
      case IUn(_) => SafeOp(c, st);
      case ICast(_) => SafeOp(c, st);
      case IJmp(_) => SafeOp(c, st);
      case IBin(_) => SafeBin(c, st);
      case IStore(_) => SafeStore(c, st);
      case ICall(_) => SafeCall(c, st);
      case IRet => SafeRet(c, st);
      case _ =>
    }
  }

  /** The run makes no call when all frames are in use, in its first n steps. */
  ghost predicate DepthKept(m: Machine, st: State, n: nat)
    decreases n
  {
    n == 0 || (
      && (st.pc < |m.code| && Decode(m.code, st.pc).ICall? ==> |st.frames| < VM_DEPTH)
      && (Step(m, st).Go? ==> DepthKept(m, Step(m, st).st, n - 1)))
  }

  lemma {:induction false} RunStaysSound(c: Noted, st: State, n: nat, st': State)
    requires Typed(c) && Sound(c, st) && |c.l.m.code| == |c.ns|
    requires DepthKept(c.l.m, st, n) && Steps(c.l.m, st, n) == Some(st')
    ensures Sound(c, st')
    decreases n
  {
    hide Sound, Step, Decode, Typed;
    if n > 0 {
      SoundPc(c, st);
      StepIsSafe(c, st);
      RunStaysSound(c, Step(c.l.m, st).st, n - 1, st');
    }
  }

  lemma SoundPc(c: Noted, st: State)
    requires Sound(c, st)
    ensures st.pc < |c.ns| && c.ns[st.pc].Start?
  {
  }

  /** Every state a compiled program reaches is sound, and every step it makes is safe: in any run, of any length,
      that makes no call when all 256 frames are in use, with a stack for 257 frames. */
  lemma ProgramIsSafe(p: Program, cap: nat, n: nat, st: State)
    requires Loadable(p) && StackNeed(MaxFrame(p.consts, p.fns), VM_DEPTH) <= cap < 0x8000_0000
    requires var im := ProgramImage(p);
             && DepthKept(Machine(im.code, im.pool), InitState(cap, im.entry), n + 1)
             && Steps(Machine(im.code, im.pool), InitState(cap, im.entry), n) == Some(st)
    ensures var c := NotedProgram(p);
            && |c.l.m.code| == |c.ns| && Sound(c, st) && SafeStep(c, st, Step(c.l.m, st))
  {
    hide Sound, Step, Decode, SafeStep, FnsNotes, FnsCells, MaxFrame, StackNeed;
    var c := NotedProgram(p);
    var im := ProgramImage(p);
    var st0 := InitState(cap, im.entry);
    NotesFill(p);
    ProgramTyped(p);
    StartSound(p, cap);
    DepthPrefix(c.l.m, st0, n, st);
    RunStaysSound(c, st0, n, st);
    SoundPc(c, st);
    StepIsSafe(c, st);
  }

  // Slots over whole runs.

  /** The frame of a level: the saved frames come first, the running one is the last level. */
  function FrameStart(st: State, level: nat): nat
    requires level <= |st.frames|
  {
    if level == |st.frames| then st.fp else st.frames[level].fp
  }

  /** Where the slots held by the frame of a level end. A saved frame holds what is below its temporaries, and these
      end where its callee begins. */
  function HeldBy(c: Noted, st: State, level: nat): int
    requires level <= |st.frames|
  {
    if level == |st.frames| then
      if st.pc < |c.ns| && c.ns[st.pc].Start? then Held(c, st) else 0
    else
      var ret := st.frames[level].ret;
      if ret < |c.ns| && c.ns[ret].Start? then FrameStart(st, level + 1) - (c.ns[ret].depth - 1) else 0
  }

  /** Slot j is held by the frame of a level. */
  predicate HoldsSlot(c: Noted, st: State, level: nat, j: nat) {
    level <= |st.frames| && FrameStart(st, level) <= j < HeldBy(c, st, level)
  }

  /** In the next n steps the frame of a level neither stores to slot j nor returns. Calls from it, and whatever the
      callees do, are allowed. */
  ghost predicate LeavesAlone(m: Machine, st: State, n: nat, level: nat, j: nat)
    decreases n
  {
    n == 0 || (
      && (st.pc < |m.code| && |st.frames| == level ==>
            var i := Decode(m.code, st.pc); !i.IRet? && !(i.IStore? && st.fp + i.slot == j))
      && (Step(m, st).Go? ==> LeavesAlone(m, Step(m, st).st, n - 1, level, j)))
  }

  /** Frames begin one above the other. */
  lemma {:induction false} FramesRise(c: Noted, st: State, frames: seq<Frame>, fp: nat, level: nat)
    requires FramesOk(c, frames, fp) && level < |frames|
    ensures frames[level].fp <= fp
    ensures level + 1 < |frames| ==> frames[level + 1].fp <= fp
    ensures frames[level].ret < |c.ns| && c.ns[frames[level].ret].Start? && c.ns[frames[level].ret].depth >= 1
    decreases |frames|
  {
    var k := |frames| - 1;
    if level < k {
      FramesRise(c, st, frames[..k], frames[k].fp, level);
    }
  }

  lemma StepLeaves(m: Machine, st: State, level: nat, j: nat)
    requires LeavesAlone(m, st, 1, level, j) && st.pc < |m.code| && |st.frames| == level
    ensures var i := Decode(m.code, st.pc); !i.IRet? && !(i.IStore? && st.fp + i.slot == j)
  {
    hide Decode, Step;
  }

  /** A slot that a frame holds lies below the temporaries of the running frame, and below that frame altogether if the
      frame is a saved one. */
  lemma HeldBelow(c: Noted, st: State, level: nat, j: nat)
    requires Typed(c) && Sound(c, st) && HoldsSlot(c, st, level, j)
    ensures j < Held(c, st) && j < |st.stack| && (level < |st.frames| ==> j < st.fp)
  {
    hide Decode, StackNeed, RangeChecks;
    RoomLeft(c, st);
    if level < |st.frames| {
      FramesRise(c, st, st.frames, st.fp, level);
    }
  }

  /** A frame holds its slots through a step that does not leave it. */
  lemma FrameHolds(c: Noted, st: State, i: Instr, st': State, level: nat, j: nat)
    requires st.pc < |c.ns| && c.ns[st.pc].Start? && st'.pc < |c.ns| && c.ns[st'.pc].Start?
    requires FrameStep(c, st, i, st') && HoldsSlot(c, st, level, j) && (i.IRet? ==> level < |st.frames|)
    ensures HoldsSlot(c, st', level, j)
  {
  }

  /** One step that leaves slot j alone keeps its value, and the frame still holds it. */
  lemma SlotKeptOnce(c: Noted, st: State, level: nat, j: nat)
    requires Typed(c) && Sound(c, st) && |c.l.m.code| == |c.ns| && st.pc < |c.ns| && c.ns[st.pc].Start?
    requires SafeStep(c, st, Step(c.l.m, st)) && Step(c.l.m, st).Go? && LeavesAlone(c.l.m, st, 1, level, j)
    requires HoldsSlot(c, st, level, j)
    ensures j < |st.stack| == |Step(c.l.m, st).st.stack| && Step(c.l.m, st).st.stack[j] == st.stack[j]
    ensures HoldsSlot(c, Step(c.l.m, st).st, level, j)
  {
    hide Decode, Step, LeavesAlone, Typed, Sound, HoldsSlot, FrameStep, Held;
    var st' := Step(c.l.m, st).st;
    HeldBelow(c, st, level, j);
    HoldsLevel(c, st, level, j);
    if |st.frames| == level {
      StepLeaves(c.l.m, st, level, j);
    }
    SoundPc(c, st');
    FrameHolds(c, st, Decode(c.l.m.code, st.pc), st', level, j);
  }

  lemma HoldsLevel(c: Noted, st: State, level: nat, j: nat)
    requires HoldsSlot(c, st, level, j)
    ensures level <= |st.frames|
  {
  }

  /** A slot that a frame holds keeps its value for any number of steps, through calls and whatever they call, until
      the frame stores to it or returns. */
  lemma {:induction false} SlotKept(c: Noted, st: State, n: nat, st': State, level: nat, j: nat)
    requires Typed(c) && Sound(c, st) && |c.l.m.code| == |c.ns|
    requires DepthKept(c.l.m, st, n) && Steps(c.l.m, st, n) == Some(st')
    requires HoldsSlot(c, st, level, j) && LeavesAlone(c.l.m, st, n, level, j)
    ensures HoldsSlot(c, st', level, j) && j < |st.stack| == |st'.stack| && st'.stack[j] == st.stack[j]
    decreases n
  {
    hide Sound, Step, Decode, Typed, SafeStep, HoldsSlot;
    if n == 0 {
      SlotInside(c, st, level, j);
    } else {
      SoundPc(c, st);
      StepIsSafe(c, st);
      SafeStepSound(c, st);
      SlotKeptOnce(c, st, level, j);
      SlotKept(c, Step(c.l.m, st).st, n - 1, st', level, j);
    }
  }

  lemma SlotInside(c: Noted, st: State, level: nat, j: nat)
    requires Typed(c) && Sound(c, st) && HoldsSlot(c, st, level, j)
    ensures j < |st.stack|
  {
    hide StackNeed, RangeChecks;
    RoomLeft(c, st);
    if level < |st.frames| {
      FramesRise(c, st, st.frames, st.fp, level);
    }
  }

  lemma SafeStepSound(c: Noted, st: State)
    requires st.pc < |c.l.m.code| == |c.ns| && c.ns[st.pc].Start? && SafeStep(c, st, Step(c.l.m, st))
    ensures Step(c.l.m, st).Go? ==> Sound(c, Step(c.l.m, st).st)
  {
    hide Step, Sound, Decode;
  }

  /** In every run of a compiled program: a slot held by a frame at some point of the run keeps its value until that
      frame stores to it or returns. */
  lemma ProgramKeepsSlots(p: Program, cap: nat, n: nat, st: State, m: nat, st': State, level: nat, j: nat)
    requires Loadable(p) && StackNeed(MaxFrame(p.consts, p.fns), VM_DEPTH) <= cap < 0x8000_0000
    requires var im := ProgramImage(p);
             && DepthKept(Machine(im.code, im.pool), InitState(cap, im.entry), n + m)
             && Steps(Machine(im.code, im.pool), InitState(cap, im.entry), n) == Some(st)
             && Steps(Machine(im.code, im.pool), st, m) == Some(st')
             && LeavesAlone(Machine(im.code, im.pool), st, m, level, j)
    requires HoldsSlot(NotedProgram(p), st, level, j)
    ensures j < |st.stack| == |st'.stack| && st'.stack[j] == st.stack[j] && HoldsSlot(NotedProgram(p), st', level, j)
  {
    hide Sound, Step, Decode, SafeStep, FnsNotes, FnsCells, MaxFrame, StackNeed, Typed, HoldsSlot;
    var c := NotedProgram(p);
    var st0 := InitState(cap, ProgramImage(p).entry);
    NotesFill(p);
    ProgramTyped(p);
    StartSound(p, cap);
    DepthSplit(c.l.m, st0, n, m, st);
    RunStaysSound(c, st0, n, st);
    SlotKept(c, st, m, st', level, j);
  }

  lemma {:induction false} DepthSplit(m: Machine, st: State, n: nat, k: nat, st': State)
    requires DepthKept(m, st, n + k) && Steps(m, st, n) == Some(st')
    ensures DepthKept(m, st, n) && DepthKept(m, st', k)
    decreases n
  {
    hide Step, Decode;
    if n > 0 {
      DepthSplit(m, Step(m, st).st, n - 1, k, st');
    }
  }

  /** A value assigned to a local variable is what the variable holds until it is assigned again or its function
      returns, whatever temporaries and calls come in between. */
  lemma AssignedStays(p: Program, cap: nat, n: nat, st: State, m: nat, st': State)
    requires Loadable(p) && StackNeed(MaxFrame(p.consts, p.fns), VM_DEPTH) <= cap < 0x8000_0000
    requires var im := ProgramImage(p);
             var ma := Machine(im.code, im.pool);
             && DepthKept(ma, InitState(cap, im.entry), n + 1 + m)
             && Steps(ma, InitState(cap, im.entry), n) == Some(st)
             && st.pc < |im.code| && Decode(im.code, st.pc).IStore? && Step(ma, st).Go?
             && Steps(ma, Step(ma, st).st, m) == Some(st')
             && LeavesAlone(ma, Step(ma, st).st, m, |st.frames|, st.fp + Decode(im.code, st.pc).slot)
    ensures var j := st.fp + Decode(ProgramImage(p).code, st.pc).slot; j < |st'.stack| && st'.stack[j] == Top(st)
  {
    hide Step, Decode, FnsNotes, FnsCells, MaxFrame, StackNeed, Typed, FramesOk;
    var c := NotedProgram(p);
    var ma := c.l.m;
    var st0, st1 := InitState(cap, ProgramImage(p).entry), Step(ma, st).st;
    assert Steps(ma, st, 1) == Some(st1);
    StepsCompose(ma, st0, n, st, 1, st1);
    DepthSplit(ma, st0, n + 1, m, st1);
    ProgramIsSafe(p, cap, n, st);
    ProgramKeepsSlots(p, cap, n + 1, st1, m, st', |st.frames|, st.fp + Decode(c.l.m.code, st.pc).slot);
  }

  lemma {:induction false} DepthPrefix(m: Machine, st: State, n: nat, st': State)
    requires DepthKept(m, st, n + 1) && Steps(m, st, n) == Some(st')
    ensures DepthKept(m, st, n)
    ensures st'.pc < |m.code| && Decode(m.code, st'.pc).ICall? ==> |st'.frames| < VM_DEPTH
    decreases n
  {
    hide Step, Decode;
    if n > 0 {
      DepthPrefix(m, Step(m, st).st, n - 1, st');
    }
  }

  lemma ProgramTyped(p: Program)
    requires Loadable(p)
    ensures Typed(NotedProgram(p))
  {
    hide RangeChecks, FnsNotes, FnsCells, MaxFrame, Entries, PoolOf;
    NotesFill(p);
    ProgramChecks(p, |p.fns|);
    assert p.fns[..|p.fns|] == p.fns;
  }

  lemma StartSound(p: Program, cap: nat)
    requires Loadable(p) && StackNeed(MaxFrame(p.consts, p.fns), VM_DEPTH) <= cap < 0x8000_0000
    ensures Sound(NotedProgram(p), InitState(cap, ProgramImage(p).entry))
  {
    hide FnsNotes, FnsCells, MaxFrame, Entries, PoolOf, StackNeed, FnLinked, SlotsOf, FindFn;
    var c := NotedProgram(p);
    ProgramEnters(p);
    assert FnEnters(c, "main");
    ProgramFnLinked(p, "main");
    EntryOfMain(p);
    ParamsAreSlots(p.consts, FindFn(p.fns, "main").value);
  }
}
