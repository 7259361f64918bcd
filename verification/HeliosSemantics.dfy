/**
 * The meaning of Helios source programs, independent of bytecode.
 *
 * Variables have function-wide scope, top-level constants win over locals on read, `&&` and `||`
 * evaluate both sides, and `for` evaluates its end and step on every iteration. Evaluation is
 * big-step: `depth` bounds the number of nested user calls and `fuel` the length of the
 * evaluation. Reading a variable that was never assigned and dividing i32::MIN by -1 are stuck.
 */
module HeliosSemantics {
  import opened Bits
  import opened HeliosAst
  import opened Wrappers

  /** The locals of the running function and everything printed so far. */
  datatype Store = Store(vars: map<string, i32>, out: seq<u8>)

  datatype Flow = Next | Broke | Continued | Returned(v: i32)

  datatype ExprResult = NoValue | Value(v: i32, out: seq<u8>)
  datatype ArgsResult = NoValues | Values(vs: seq<i32>, out: seq<u8>)
  datatype StmtResult = NoEnd | End(flow: Flow, st: Store)

  function EvalExpr(p: Program, e: Expr, s: Store, depth: nat, fuel: nat): ExprResult
    decreases fuel, e, 0
  {
    match e
    case IntLit(n) => Value(n, s.out)
    case BoolLit(b) => Value(OfBool(b), s.out)
    case StrLit(_) => NoValue
    case Var(x) =>
      var c := FindConst(p.consts, x);
      if c.Some? then Value(c.value, s.out)
      else if x in s.vars then Value(s.vars[x], s.out)
      else NoValue
    case Un(op, a) =>
      var r := EvalExpr(p, a, s, depth, fuel);
      if r.NoValue? then NoValue else Value(UnVal(op, r.v), r.out)
    case Bin(a, op, b) =>
      var ra := EvalExpr(p, a, s, depth, fuel);
      if ra.NoValue? then NoValue else
      var rb := EvalExpr(p, b, s.(out := ra.out), depth, fuel);
      if rb.NoValue? then NoValue else
      var v := BinVal(op, ra.v, rb.v);
      if v.None? then NoValue else Value(v.value, rb.out)
    case Cast(a, t) =>
      var r := EvalExpr(p, a, s, depth, fuel);
      if r.NoValue? then NoValue else Value(CastVal(t, r.v), r.out)
    case Call(f, args) =>
      var r := EvalArgs(p, args, s, depth, fuel);
      if r.NoValues? || depth == 0 || fuel == 0 then NoValue else
      var fd := FindFn(p.fns, f);
      if fd.None? then NoValue else CallFn(p, fd.value, r.vs, r.out, depth - 1, fuel - 1)
  }

  /** Arguments are evaluated from left to right. */
  function EvalArgs(p: Program, args: seq<Expr>, s: Store, depth: nat, fuel: nat): (r: ArgsResult)
    ensures r.Values? ==> |r.vs| == |args|
    decreases fuel, args, 0
  {
    if args == [] then Values([], s.out) else
    var k := |args| - 1;
    var r := EvalArgs(p, args[..k], s, depth, fuel);
    if r.NoValues? then NoValues else
    var last := EvalExpr(p, args[k], s.(out := r.out), depth, fuel);
    if last.NoValue? then NoValues else Values(r.vs + [last.v], last.out)
  }

  function Bind(params: seq<string>, vs: seq<i32>): map<string, i32>
    requires |params| == |vs|
  {
    if params == [] then map[]
    else Bind(params[..|params| - 1], vs[..|params| - 1])[params[|params| - 1] := vs[|params| - 1]]
  }

  /** A function that ends without `return` gives 0. */
  function CallFn(p: Program, f: FnDef, vs: seq<i32>, out: seq<u8>, depth: nat, fuel: nat): ExprResult
    decreases fuel, f.body, 2
  {
    if |f.params| != |vs| then NoValue else
    var r := ExecStmts(p, f.body, Store(Bind(f.params, vs), out), depth, fuel);
    if r.NoEnd? then NoValue
    else if r.flow.Returned? then Value(r.flow.v, r.st.out)
    else if r.flow.Next? then Value(0, r.st.out)
    else NoValue
  }

  function ExecStmts(p: Program, ss: seq<Stmt>, s: Store, depth: nat, fuel: nat): StmtResult
    decreases fuel, ss, 1
  {
    if ss == [] then End(Next, s) else
    var k := |ss| - 1;
    var r := ExecStmts(p, ss[..k], s, depth, fuel);
    if r.NoEnd? || !r.flow.Next? then r
    else ExecStmt(p, ss[k], r.st, depth, fuel)
  }

  function ExecStmt(p: Program, stmt: Stmt, s: Store, depth: nat, fuel: nat): StmtResult
    decreases fuel, stmt, 1
  {
    match stmt
    case Let(x, e) => Store1(x, EvalExpr(p, e, s, depth, fuel), s)
    case Assign(x, e) => Store1(x, EvalExpr(p, e, s, depth, fuel), s)
    case CompoundAssign(x, op, e) =>
      if x !in s.vars then NoEnd else
      var r := EvalExpr(p, e, s, depth, fuel);
      if r.NoValue? then NoEnd else
      var v := BinVal(CompoundOp(op), s.vars[x], r.v);
      if v.None? then NoEnd else End(Next, Store(s.vars[x := v.value], r.out))
    case If(c, t, e) =>
      var r := EvalExpr(p, c, s, depth, fuel);
      if r.NoValue? then NoEnd else
      var s1 := s.(out := r.out);
      if r.v != 0 then ExecStmts(p, t, s1, depth, fuel) else ExecStmts(p, e, s1, depth, fuel)
    case While(c, b) =>
      var r := EvalExpr(p, c, s, depth, fuel);
      if r.NoValue? then NoEnd else
      var s1 := s.(out := r.out);
      if r.v == 0 then End(Next, s1)
      else
        var rb := ExecStmts(p, b, s1, depth, fuel);
        if rb.NoEnd? || rb.flow.Returned? then rb
        else if rb.flow.Broke? then End(Next, rb.st)
        else if fuel == 0 then NoEnd
        else ExecStmt(p, stmt, rb.st, depth, fuel - 1)
    case Loop(b) =>
      var rb := ExecStmts(p, b, s, depth, fuel);
      if rb.NoEnd? || rb.flow.Returned? then rb
      else if rb.flow.Broke? then End(Next, rb.st)
      else if fuel == 0 then NoEnd
      else ExecStmt(p, stmt, rb.st, depth, fuel - 1)
    case For(x, start, _, _, _, _) =>
      var r := EvalExpr(p, start, s, depth, fuel);
      if r.NoValue? then NoEnd
      else ExecFor(p, stmt, Store(s.vars[x := r.v], r.out), depth, fuel)
    case Match(e, arms) =>
      var r := EvalExpr(p, e, s, depth, fuel);
      if r.NoValue? then NoEnd else
      var k := ArmFor(arms, r.v);
      if k == |arms| then End(Next, s.(out := r.out))
      else ExecStmts(p, arms[k].body, s.(out := r.out), depth, fuel)
    case Break => End(Broke, s)
    case Continue => End(Continued, s)
    case Return(e) =>
      var r := EvalExpr(p, e, s, depth, fuel);
      if r.NoValue? then NoEnd else End(Returned(r.v), s.(out := r.out))
    case Print(e) =>
      if e.StrLit? then End(Next, s.(out := s.out + UpToNul(e.text)))
      else
        var r := EvalExpr(p, e, s, depth, fuel);
        if r.NoValue? then NoEnd else End(Next, s.(out := r.out + I32Text(r.v)))
    case ExprStmt(e) =>
      var r := EvalExpr(p, e, s, depth, fuel);
      if r.NoValue? then NoEnd else End(Next, s.(out := r.out))
  }

  function Store1(x: string, r: ExprResult, s: Store): StmtResult {
    if r.NoValue? then NoEnd else End(Next, Store(s.vars[x := r.v], r.out))
  }

  /** One round of a `for` loop whose variable is already set, and the rounds after it. */
  function ExecFor(p: Program, stmt: Stmt, s: Store, depth: nat, fuel: nat): StmtResult
    requires stmt.For?
    decreases fuel, stmt, 0
  {
    var x := stmt.name;
    if x !in s.vars then NoEnd else
    var i := s.vars[x];
    var re := EvalExpr(p, stmt.end, s, depth, fuel);
    if re.NoValue? then NoEnd else
    var s1 := s.(out := re.out);
    if !(if stmt.kind.Exclusive? then i < re.v else i <= re.v) then End(Next, s1)
    else
      var rb := ExecStmts(p, stmt.body, s1, depth, fuel);
      if rb.NoEnd? || rb.flow.Returned? then rb
      else if rb.flow.Broke? then End(Next, rb.st)
      else if x !in rb.st.vars || fuel == 0 then NoEnd
      else
        var inc := if stmt.step.None? then Value(1, rb.st.out) else EvalExpr(p, stmt.step.value, rb.st, depth, fuel);
        if inc.NoValue? then NoEnd
        else ExecFor(p, stmt, Store(rb.st.vars[x := Wrap32(rb.st.vars[x] + inc.v)], inc.out), depth, fuel - 1)
  }

  /** The position of the first arm that takes v, or the number of arms when none does. */
  function ArmFor(arms: seq<Arm>, v: i32): (k: nat)
    ensures k <= |arms|
    ensures forall i :: 0 <= i < k ==> arms[i].pat.LitPat? && arms[i].pat.lit != v
    ensures k < |arms| ==> arms[k].pat.Wildcard? || arms[k].pat.lit == v
  {
    if arms == [] || arms[0].pat.Wildcard? || arms[0].pat.lit == v then 0
    else 1 + ArmFor(arms[1..], v)
  }

  /** What running `main` prints, when it finishes. */
  function RunMain(p: Program, depth: nat, fuel: nat): Option<seq<u8>> {
    var m := FindFn(p.fns, "main");
    if m.None? then None else
    var r := CallFn(p, m.value, [], [], depth, fuel);
    if r.NoValue? then None else Some(r.out)
  }
}
