/**
 * Notes on compiled code: which bytes start an instruction, and how many temporaries are on the stack there.
 * They are laid out like the cells of the code, and every instruction agrees with the notes of its successors.
 */
module HeliosNotes {
  import opened Bits
  import opened HeliosAst
  import opened Wrappers
  import opened HeliosCode
  import opened HeliosVm
  import opened HeliosLink

  /** The parameters and the slots of the function some code belongs to. */
  datatype Bounds = Bounds(lo: nat, hi: nat)

  /** The start of an instruction, with the temporaries above the frame's slots and, before a call, the value that
      is on top; or a byte inside an instruction. */
  datatype Note = Inside | Start(b: Bounds, depth: nat, top: Option<nat>)

  function Ins(b: Bounds, d: nat, w: nat): (r: seq<Note>)
    requires w >= 1
    ensures |r| == w && r[0] == Start(b, d, None)
    ensures forall i :: 1 <= i < w ==> r[i] == Inside
  {
    [Start(b, d, None)] + seq(w - 1, _ => Inside)
  }

  function CallNote(b: Bounds, d: nat, n: nat): (r: seq<Note>)
    ensures |r| == 5
  {
    [Start(b, d, Some(n)), Inside, Inside, Inside, Inside]
  }

  function ExprNotes(b: Bounds, e: Expr, d: nat): (r: seq<Note>)
    ensures |r| == ExprLen(e)
    decreases e
  {
    match e
    case StrLit(_) => Ins(b, d, 3)
    case Un(_, a) => ExprNotes(b, a, d) + Ins(b, d + 1, 1)
    case Bin(x, _, y) => ExprNotes(b, x, d) + ExprNotes(b, y, d + 1) + Ins(b, d + 2, 1)
    case Cast(a, _) => ExprNotes(b, a, d) + Ins(b, d + 1, 1)
    case Call(_, args) => ArgsNotes(b, args, d) + Ins(b, d + |args|, 5) + CallNote(b, d + |args| + 1, |args|)
    case _ => Ins(b, d, 5)
  }

  function ArgsNotes(b: Bounds, args: seq<Expr>, d: nat): (r: seq<Note>)
    ensures |r| == ArgsLen(args)
    decreases args
  {
    if args == [] then [] else
    var k := |args| - 1;
    ArgsNotes(b, args[..k], d) + ExprNotes(b, args[k], d + k)
  }

  /** Statements start and end without temporaries. */
  function StmtNotes(b: Bounds, s: Stmt): (r: seq<Note>)
    ensures |r| == StmtLen(s)
    decreases s
  {
    match s
    case Let(_, e) => ExprNotes(b, e, 0) + Ins(b, 1, 5)
    case Assign(_, e) => ExprNotes(b, e, 0) + Ins(b, 1, 5)
    case CompoundAssign(_, _, e) => Ins(b, 0, 5) + ExprNotes(b, e, 1) + Ins(b, 2, 1) + Ins(b, 1, 5)
    case If(c, t, e) =>
      ExprNotes(b, c, 0) + Ins(b, 1, 5) + StmtsNotes(b, t) + Ins(b, 0, 5) + StmtsNotes(b, e)
    case While(c, body) => ExprNotes(b, c, 0) + Ins(b, 1, 5) + StmtsNotes(b, body) + Ins(b, 0, 5)
    case Loop(body) => StmtsNotes(b, body) + Ins(b, 0, 5)
    case For(_, start, end, step, _, body) =>
      ExprNotes(b, start, 0) + Ins(b, 1, 5) + ForNotes(b, end, step, body)
    case Match(e, arms) =>
      ExprNotes(b, e, 0) + ArmsNotes(b, arms) + (if ArmsTailLen(arms) == 1 then Ins(b, 1, 1) else [])
    case Break => Ins(b, 0, 5)
    case Continue => Ins(b, 0, 5)
    case Return(e) => ExprNotes(b, e, 0) + Ins(b, 1, 1)
    case Print(e) => ExprNotes(b, e, 0) + Ins(b, 1, 1)
    case ExprStmt(e) => ExprNotes(b, e, 0) + Ins(b, 1, 1)
  }

  function ForNotes(b: Bounds, end: Expr, step: Option<Expr>, body: seq<Stmt>): (r: seq<Note>)
    ensures |r| == ForLen(end, step, body)
    decreases body, 1
  {
    HeadNotes(b, end) + StmtsNotes(b, body) + TailNotes(b, step)
  }

  function HeadNotes(b: Bounds, end: Expr): (r: seq<Note>)
    ensures |r| == ExprLen(end) + 11
  {
    Ins(b, 0, 5) + ExprNotes(b, end, 1) + Ins(b, 2, 1) + Ins(b, 1, 5)
  }

  function TailNotes(b: Bounds, step: Option<Expr>): (r: seq<Note>)
    ensures |r| == StepLen(step) + 16
  {
    Ins(b, 0, 5) + (if step.None? then Ins(b, 1, 5) else ExprNotes(b, step.value, 1)) + Ins(b, 2, 1)
    + Ins(b, 1, 5) + Ins(b, 0, 5)
  }

  function StmtsNotes(b: Bounds, ss: seq<Stmt>): (r: seq<Note>)
    ensures |r| == StmtsLen(ss)
    decreases ss, 0
  {
    if ss == [] then [] else StmtsNotes(b, ss[..|ss| - 1]) + StmtNotes(b, ss[|ss| - 1])
  }

  function ArmNotes(b: Bounds, a: Arm): (r: seq<Note>)
    ensures |r| == ArmLen(a)
    decreases a, 0
  {
    if a.pat.Wildcard? then Ins(b, 1, 1) + StmtsNotes(b, a.body)
    else TestNotes(b) + StmtsNotes(b, a.body) + Ins(b, 0, 5)
  }

  /** An arm's test keeps the scrutinee until it matches. */
  function TestNotes(b: Bounds): (r: seq<Note>)
    ensures |r| == 13
  {
    Ins(b, 1, 1) + Ins(b, 2, 5) + Ins(b, 3, 1) + Ins(b, 2, 5) + Ins(b, 1, 1)
  }

  function ArmsNotes(b: Bounds, arms: seq<Arm>): (r: seq<Note>)
    ensures |r| == ArmsLen(arms)
    decreases arms, 0
  {
    if arms == [] then [] else ArmsNotes(b, arms[..|arms| - 1]) + ArmNotes(b, arms[|arms| - 1])
  }

  function BoundsOf(consts: seq<(string, i32)>, f: FnDef): Bounds {
    Bounds(|f.params|, |SlotsOf(consts, f)|)
  }

  function FnNotes(consts: seq<(string, i32)>, f: FnDef): (r: seq<Note>)
    ensures |r| == FnLen(f)
  {
    var b := BoundsOf(consts, f);
    StmtsNotes(b, f.body) + Ins(b, 0, 5) + Ins(b, 1, 1)
  }

  function FnsNotes(fns: seq<FnDef>, consts: seq<(string, i32)>): (r: seq<Note>)
    ensures |r| == FnsLen(fns)
  {
    if fns == [] then [] else
    var k := |fns| - 1;
    FnsNotes(fns[..k], consts) + FnNotes(consts, fns[k])
  }

  // Checking an instruction against the notes.

  /** Noted code: the program in memory and the notes of its bytes. */
  datatype Noted = Noted(l: Linked, ns: seq<Note>)

  predicate Follows(ns: seq<Note>, pc: nat, b: Bounds, d: nat) {
    pc < |ns| && ns[pc] == Start(b, d, None)
  }

  /** After pushing v an instruction may also know that v is on top. */
  predicate FollowsPush(ns: seq<Note>, pc: nat, b: Bounds, d: nat, v: int) {
    pc < |ns| && ns[pc].Start? && ns[pc].b == b && ns[pc].depth == d
    && (ns[pc].top.Some? ==> ns[pc].top.value == v)
  }

  /** The instruction at pc has the operands it needs, and leaves each of its successors the temporaries that
      successor is noted with. Calls pass as many arguments as the callee has parameters; stores go to a slot. */
  predicate Checks(c: Noted, pc: nat)
    requires pc < |c.ns| == |c.l.m.code| && c.ns[pc].Start?
  {
    var Start(b, d, top) := c.ns[pc];
    && b.lo <= b.hi && b.hi + d <= c.l.k
    && match Decode(c.l.m.code, pc)
       case IPush(v) => FollowsPush(c.ns, pc + 5, b, d + 1, v)
       case IPushStr(_) => Follows(c.ns, pc + 3, b, d + 1)
       case ILoad(_) => Follows(c.ns, pc + 5, b, d + 1)
       case IDup => d >= 1 && Follows(c.ns, pc + 1, b, d + 1)
       case IPop => d >= 1 && Follows(c.ns, pc + 1, b, d - 1)
       case IPrint => d >= 1 && Follows(c.ns, pc + 1, b, d - 1)
       case IPrintNum => d >= 1 && Follows(c.ns, pc + 1, b, d - 1)
       case IBin(_) => d >= 2 && Follows(c.ns, pc + 1, b, d - 1)
       case IUn(_) => d >= 1 && Follows(c.ns, pc + 1, b, d)
       case ICast(_) => d >= 1 && Follows(c.ns, pc + 1, b, d)
       case IJmp(a) => Follows(c.ns, a, b, d)
       case IJz(a) => d >= 1 && Follows(c.ns, a, b, d - 1) && Follows(c.ns, pc + 5, b, d - 1)
       case IStore(i) => d == 1 && i < b.hi && Follows(c.ns, pc + 5, b, 0)
       case ICall(a) =>
         && top.Some? && d >= top.value + 1 && Follows(c.ns, pc + 5, b, d - top.value)
         && a < |c.ns| && c.ns[a].Start? && c.ns[a] == Start(c.ns[a].b, 0, None) && c.ns[a].b.lo == top.value
       case IRet => d >= 1
       case _ => false
  }

  ghost predicate RangeChecks(c: Noted, from: nat, to: nat) {
    && |c.ns| == |c.l.m.code|
    && forall pc :: from <= pc < to && pc < |c.ns| && c.ns[pc].Start? ==> Checks(c, pc)
  }

  lemma RangesJoin(c: Noted, x: nat, y: nat, z: nat)
    requires RangeChecks(c, x, y) && RangeChecks(c, y, z)
    ensures RangeChecks(c, x, z)
  {
    hide Checks;
  }

  /** The code at pc is these cells and the notes there are these notes. */
  ghost predicate Has(c: Noted, pc: nat, cs: seq<Cell>, notes: seq<Note>) {
    && |c.ns| == |c.l.m.code|
    && |cs| == |notes| && HasCells(c.l.m.code, pc, cs, c.l.entries)
    && forall i :: 0 <= i < |notes| ==> c.ns[pc + i] == notes[i]
  }

  lemma Split(c: Noted, pc: nat, cs1: seq<Cell>, cs2: seq<Cell>, n1: seq<Note>, n2: seq<Note>)
    requires |cs1| == |n1| && Has(c, pc, cs1 + cs2, n1 + n2)
    ensures Has(c, pc, cs1, n1) && Has(c, pc + |cs1|, cs2, n2)
  {
    SplitCells(c.l.m.code, pc, cs1, cs2, c.l.entries);
    forall i | 0 <= i < |n1|
      ensures c.ns[pc + i] == n1[i]
    {
      assert (n1 + n2)[i] == n1[i];
    }
    forall i | 0 <= i < |n2|
      ensures c.ns[pc + |cs1| + i] == n2[i]
    {
      assert c.ns[pc + (|n1| + i)] == (n1 + n2)[|n1| + i];
    }
  }

  /** The first note of a piece is the note at its address. */
  lemma FirstFollows(c: Noted, pc: nat, cs: seq<Cell>, notes: seq<Note>, b: Bounds, d: nat)
    requires Has(c, pc, cs, notes) && notes != [] && notes[0] == Start(b, d, None)
    ensures Follows(c.ns, pc, b, d)
  {
    assert c.ns[pc + 0] == notes[0];
  }

  /** One instruction: only its first byte starts one. */
  lemma OneInstr(c: Noted, pc: nat, cs: seq<Cell>, notes: seq<Note>)
    requires Has(c, pc, cs, notes) && notes != [] && notes[0].Start?
    requires forall i :: 1 <= i < |notes| ==> notes[i] == Inside
    requires pc < |c.ns| ==> c.ns[pc].Start? ==> Checks(c, pc)
    ensures RangeChecks(c, pc, pc + |cs|)
  {
    hide Checks;
    assert c.ns[pc + 0] == notes[0];
    forall a | pc <= a < pc + |cs| && a < |c.ns| && c.ns[a].Start?
      ensures Checks(c, a)
    {
      assert c.ns[pc + (a - pc)] == notes[a - pc];
    }
  }
}
