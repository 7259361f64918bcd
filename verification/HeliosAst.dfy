/** The Helios abstract syntax (the memory-free fragment) and the value operators of the VM. */
module HeliosAst {
  import opened Bits
  import opened Wrappers

  datatype BinOp = Add | Sub | Mul | Div | Mod
                 | Eq | Ne | Lt | Le | Gt | Ge
                 | LAnd | LOr
                 | BAnd | BOr | BXor | Shl | Shr

  datatype UnOp = Neg | Not | BNot

  datatype CastTarget = ToInt | ToBool

  datatype Expr =
    | IntLit(n: i32)
    | BoolLit(b: bool)
    | StrLit(text: seq<u8>)
    | Var(name: string)
    | Un(uop: UnOp, arg: Expr)
    | Bin(left: Expr, bop: BinOp, right: Expr)
    | Cast(inner: Expr, target: CastTarget)
    | Call(fname: string, args: seq<Expr>)

  datatype RangeKind = Exclusive | Inclusive

  datatype Pattern = LitPat(lit: i32) | Wildcard

  datatype Arm = Arm(pat: Pattern, body: seq<Stmt>)

  datatype Stmt =
    | Let(name: string, init: Expr)
    | Assign(name: string, init: Expr)
    | CompoundAssign(name: string, cop: BinOp, rhs: Expr)
    | If(cond: Expr, thn: seq<Stmt>, els: seq<Stmt>)
    | While(cond: Expr, body: seq<Stmt>)
    | Loop(body: seq<Stmt>)
    | For(name: string, start: Expr, end: Expr, step: Option<Expr>, kind: RangeKind, body: seq<Stmt>)
    | Match(scrutinee: Expr, arms: seq<Arm>)
    | Break
    | Continue
    | Return(result: Expr)
    | Print(shown: Expr)
    | ExprStmt(e: Expr)

  datatype FnDef = FnDef(name: string, params: seq<string>, body: seq<Stmt>)

  datatype Program = Program(fns: seq<FnDef>, consts: seq<(string, i32)>)

  const MIN_I32: i32 := -0x8000_0000

  function OfBool(b: bool): i32 {
    if b then 1 else 0
  }

  function AndI32(a: i32, b: i32): i32 {
    Pow2At32(); BitBounds(ToU32(a), ToU32(b), 32);
    ToI32(And(ToU32(a), ToU32(b)))
  }

  function OrI32(a: i32, b: i32): i32 {
    Pow2At32(); BitBounds(ToU32(a), ToU32(b), 32);
    ToI32(Or(ToU32(a), ToU32(b)))
  }

  function XorI32(a: i32, b: i32): i32 {
    Pow2At32(); BitBounds(ToU32(a), ToU32(b), 32);
    ToI32(Xor(ToU32(a), ToU32(b)))
  }

  function ShrI32(a: i32, n: nat): i32 {
    var q := ToU32(a) / Pow2(n);
    QuotientBound(ToU32(a), Pow2(n));
    ToI32(q)
  }

  lemma QuotientBound(a: nat, d: nat)
    requires d > 0
    ensures 0 <= a / d <= a
  {
    assert a == d * (a / d) + a % d;
    if a / d > a {
      MulAtLeast(a / d, d);
    }
  }

  lemma TruncDivRange(a: i32, b: i32)
    requires b != 0 && !(a == MIN_I32 && b == -1)
    ensures -0x8000_0000 <= TruncDiv(a, b) < 0x8000_0000
    ensures -0x8000_0000 <= TruncMod(a, b) < 0x8000_0000
  {
    var q := Abs(a) / Abs(b);
    QuotientBound(Abs(a), Abs(b));
    assert q == 0x8000_0000 ==> Abs(b) == 1;
  }

  /** The value of a binary operator; `None` is the one case the VM does not survive. */
  function BinVal(op: BinOp, a: i32, b: i32): Option<i32> {
    match op
    case Add => Some(Wrap32(a + b))
    case Sub => Some(Wrap32(a - b))
    case Mul => Some(Wrap32(a * b))
    case Div =>
      if b == 0 then Some(0)
      else if a == MIN_I32 && b == -1 then None
      else TruncDivRange(a, b); Some(TruncDiv(a, b))
    case Mod =>
      if b == 0 then Some(0)
      else if a == MIN_I32 && b == -1 then None
      else TruncDivRange(a, b); Some(TruncMod(a, b))
    case Eq => Some(OfBool(a == b))
    case Ne => Some(OfBool(a != b))
    case Lt => Some(OfBool(a < b))
    case Le => Some(OfBool(a <= b))
    case Gt => Some(OfBool(a > b))
    case Ge => Some(OfBool(a >= b))
    case LAnd => Some(OfBool(a != 0 && b != 0))
    case LOr => Some(OfBool(a != 0 || b != 0))
    case BAnd => Some(AndI32(a, b))
    case BOr => Some(OrI32(a, b))
    case BXor => Some(XorI32(a, b))
    case Shl => Some(Wrap32(a * Pow2(b % 32)))
    case Shr => Some(ShrI32(a, b % 32))
  }

  function UnVal(op: UnOp, a: i32): i32 {
    match op
    case Neg => Wrap32(0 - a)
    case Not => OfBool(a == 0)
    case BNot => 0 - a - 1
  }

  function CastVal(t: CastTarget, a: i32): i32 {
    match t
    case ToInt => a
    case ToBool => OfBool(a != 0)
  }

  /** The operator a compound assignment applies: the emitter maps every other kind to addition. */
  function CompoundOp(op: BinOp): BinOp {
    match op
    case Add | Sub | Mul | Div | Mod | BAnd | BOr | BXor => op
    case _ => Add
  }

  /** The text `kprint_i32` writes. Digits of a negative number are taken after negation, which
      leaves i32::MIN unchanged; the remainders are then negative and the byte sums wrap. */
  function Digits(n: i32): seq<u8>
    decreases Abs(n)
  {
    if n == 0 then []
    else
      TruncDivRange(n, 10);
      var q := TruncDiv(n, 10);
      assert Abs(q) < Abs(n);
      Digits(q) + [(48 + TruncMod(n, 10)) % 0x100]
  }

  function I32Text(n: i32): seq<u8> {
    if n == 0 then [48]
    else if n < 0 then [45] + Digits(if n == MIN_I32 then n else 0 - n)
    else Digits(n)
  }

  /** The part of a byte string the terminal shows: everything before the first NUL. */
  function UpToNul(s: seq<u8>): seq<u8> {
    if s == [] || s[0] == 0 then [] else [s[0]] + UpToNul(s[1..])
  }

  function FindFn(fns: seq<FnDef>, name: string): Option<FnDef> {
    if fns == [] then None
    else if fns[0].name == name then Some(fns[0])
    else FindFn(fns[1..], name)
  }

  function FindConst(consts: seq<(string, i32)>, name: string): Option<i32> {
    if consts == [] then None
    else if consts[0].0 == name then Some(consts[0].1)
    else FindConst(consts[1..], name)
  }

  /** Names that `emit_intrinsic_call` turns into opcodes when called with this many arguments
      (without `using` imports). A program may not define its own functions under them. */
  predicate Intrinsic(name: string, argc: nat) {
    match argc
    case 0 => name in {"get_ticks", "poll_scancode"}
    case 1 => name in {"peek8", "peek16", "peek32", "strlen", "stoi", "char_code", "ord", "malloc", "alloc", "free",
                       "in8", "in16", "in32", "sleep_ms", "pit_set_hz", "print_char", "print_str", "cpuid", "print_hex"}
    case 2 => name in {"peek", "poke8", "poke16", "poke32", "out8", "out16", "out32"}
    case 3 => name in {"poke", "strsub", "memcpy", "memset"}
    case _ => false
  }

  /** Well-formed expressions: every call names a user function with that many parameters. */
  predicate WfExpr(p: Program, e: Expr)
    decreases e
  {
    match e
    case Un(_, a) => WfExpr(p, a)
    case Bin(l, _, r) => WfExpr(p, l) && WfExpr(p, r)
    case Cast(a, _) => WfExpr(p, a)
    case Call(f, args) =>
      && !Intrinsic(f, |args|)
      && FindFn(p.fns, f).Some?
      && |FindFn(p.fns, f).value.params| == |args|
      && forall i :: 0 <= i < |args| ==> WfExpr(p, args[i])
    case _ => true
  }

  /** Well-formed statements: break and continue only inside loops (the parser reports E050 and
      E051 otherwise), a match has arms, and a `_` arm is the last one. */
  predicate WfStmt(p: Program, s: Stmt, inLoop: bool)
    decreases s, 0
  {
    match s
    case Let(_, e) => WfExpr(p, e)
    case Assign(_, e) => WfExpr(p, e)
    case CompoundAssign(_, _, e) => WfExpr(p, e)
    case If(c, t, e) => WfExpr(p, c) && WfStmts(p, t, inLoop) && WfStmts(p, e, inLoop)
    case While(c, b) => WfExpr(p, c) && WfStmts(p, b, true)
    case Loop(b) => WfStmts(p, b, true)
    case For(_, start, end, step, _, b) =>
      WfExpr(p, start) && WfExpr(p, end) && (step.Some? ==> WfExpr(p, step.value)) && WfStmts(p, b, true)
    case Match(e, arms) =>
      && WfExpr(p, e)
      && (forall i :: 0 <= i < |arms| ==> WfStmts(p, arms[i].body, inLoop))
      && arms != [] && forall i :: 0 <= i < |arms| - 1 ==> arms[i].pat.LitPat?
    case Break => inLoop
    case Continue => inLoop
    case Return(e) => WfExpr(p, e)
    case Print(e) => WfExpr(p, e)
    case ExprStmt(e) => WfExpr(p, e)
  }

  predicate WfStmts(p: Program, ss: seq<Stmt>, inLoop: bool)
    decreases ss
  {
    forall i :: 0 <= i < |ss| ==> WfStmt(p, ss[i], inLoop)
  }

  predicate Distinct<T(==)>(s: seq<T>) {
    forall i, j :: 0 <= i < j < |s| ==> s[i] != s[j]
  }

  predicate WfFn(p: Program, f: FnDef) {
    Distinct(f.params) && WfStmts(p, f.body, false)
  }

  predicate WfProgram(p: Program) {
    && (forall i :: 0 <= i < |p.fns| ==> WfFn(p, p.fns[i]))
    && FindFn(p.fns, "main").Some?
    && FindFn(p.fns, "main").value.params == []
  }
}
