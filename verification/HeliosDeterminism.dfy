/** More fuel or more call depth never changes the meaning of a program that finishes. */
module HeliosDeterminism {
  import opened Bits
  import opened HeliosAst
  import opened Wrappers
  import opened HeliosSemantics

  lemma {:induction false} MoreForExpr(p: Program, e: Expr, s: Store, d: nat, f: nat, d': nat, f': nat)
    requires d <= d' && f <= f' && EvalExpr(p, e, s, d, f).Value?
    ensures EvalExpr(p, e, s, d', f') == EvalExpr(p, e, s, d, f)
    decreases f, e, 0
  {
    match e
    case Un(_, a) => MoreForExpr(p, a, s, d, f, d', f');
    case Cast(a, _) => MoreForExpr(p, a, s, d, f, d', f');
    case Bin(a, _, b) =>
      MoreForExpr(p, a, s, d, f, d', f');
      MoreForExpr(p, b, s.(out := EvalExpr(p, a, s, d, f).out), d, f, d', f');
    case Call(g, args) =>
      MoreForArgs(p, args, s, d, f, d', f');
      var r := EvalArgs(p, args, s, d, f);
      MoreForFn(p, FindFn(p.fns, g).value, r.vs, r.out, d - 1, f - 1, d' - 1, f' - 1);
    case _ =>
  }

  lemma {:induction false} MoreForArgs(p: Program, args: seq<Expr>, s: Store, d: nat, f: nat, d': nat, f': nat)
    requires d <= d' && f <= f' && EvalArgs(p, args, s, d, f).Values?
    ensures EvalArgs(p, args, s, d', f') == EvalArgs(p, args, s, d, f)
    decreases f, args, 0
  {
    if args != [] {
      var k := |args| - 1;
      MoreForArgs(p, args[..k], s, d, f, d', f');
      MoreForExpr(p, args[k], s.(out := EvalArgs(p, args[..k], s, d, f).out), d, f, d', f');
    }
  }

  lemma {:induction false} MoreForFn(p: Program, g: FnDef, vs: seq<i32>, out: seq<u8>, d: nat, f: nat, d': nat, f': nat)
    requires d <= d' && f <= f' && CallFn(p, g, vs, out, d, f).Value?
    ensures CallFn(p, g, vs, out, d', f') == CallFn(p, g, vs, out, d, f)
    decreases f, g.body, 2
  {
    MoreForStmts(p, g.body, Store(Bind(g.params, vs), out), d, f, d', f');
  }

  lemma {:induction false} MoreForStmts(p: Program, ss: seq<Stmt>, s: Store, d: nat, f: nat, d': nat, f': nat)
    requires d <= d' && f <= f' && ExecStmts(p, ss, s, d, f).End?
    ensures ExecStmts(p, ss, s, d', f') == ExecStmts(p, ss, s, d, f)
    decreases f, ss, 1
  {
    hide ExecStmt;
    if ss != [] {
      var k := |ss| - 1;
      MoreForStmts(p, ss[..k], s, d, f, d', f');
      var r := ExecStmts(p, ss[..k], s, d, f);
      if r.flow.Next? {
        MoreForStmt(p, ss[k], r.st, d, f, d', f');
      }
    }
  }

  lemma {:induction false} MoreForStmt(p: Program, stmt: Stmt, s: Store, d: nat, f: nat, d': nat, f': nat)
    requires d <= d' && f <= f' && ExecStmt(p, stmt, s, d, f).End?
    ensures ExecStmt(p, stmt, s, d', f') == ExecStmt(p, stmt, s, d, f)
    decreases f, stmt, 1
  {
    hide EvalExpr, ExecStmts, ExecFor;
    match stmt
    case Let(_, e) => MoreForExpr(p, e, s, d, f, d', f');
    case Assign(_, e) => MoreForExpr(p, e, s, d, f, d', f');
    case CompoundAssign(_, _, e) => MoreForExpr(p, e, s, d, f, d', f');
    case If(c, t, e) =>
      MoreForExpr(p, c, s, d, f, d', f');
      var r := EvalExpr(p, c, s, d, f);
      MoreForStmts(p, if r.v != 0 then t else e, s.(out := r.out), d, f, d', f');
    case While(c, b) =>
      MoreForExpr(p, c, s, d, f, d', f');
      var r := EvalExpr(p, c, s, d, f);
      if r.v != 0 {
        MoreForStmts(p, b, s.(out := r.out), d, f, d', f');
        var rb := ExecStmts(p, b, s.(out := r.out), d, f);
        if rb.flow.Next? || rb.flow.Continued? {
          MoreForStmt(p, stmt, rb.st, d, f - 1, d', f' - 1);
        }
      }
    case Loop(b) =>
      MoreForStmts(p, b, s, d, f, d', f');
      var rb := ExecStmts(p, b, s, d, f);
      if rb.flow.Next? || rb.flow.Continued? {
        MoreForStmt(p, stmt, rb.st, d, f - 1, d', f' - 1);
      }
    case For(x, start, _, _, _, _) =>
      MoreForExpr(p, start, s, d, f, d', f');
      var r := EvalExpr(p, start, s, d, f);
      MoreForRounds(p, stmt, Store(s.vars[x := r.v], r.out), d, f, d', f');
    case Match(e, arms) =>
      MoreForExpr(p, e, s, d, f, d', f');
      var r := EvalExpr(p, e, s, d, f);
      var k := ArmFor(arms, r.v);
      if k < |arms| {
        MoreForStmts(p, arms[k].body, s.(out := r.out), d, f, d', f');
      }
    case Return(e) => MoreForExpr(p, e, s, d, f, d', f');
    case Print(e) =>
      if !e.StrLit? {
        MoreForExpr(p, e, s, d, f, d', f');
      }
    case ExprStmt(e) => MoreForExpr(p, e, s, d, f, d', f');
    case _ =>
  }

  lemma {:induction false} MoreForRounds(p: Program, stmt: Stmt, s: Store, d: nat, f: nat, d': nat, f': nat)
    requires d <= d' && f <= f' && stmt.For? && ExecFor(p, stmt, s, d, f).End?
    ensures ExecFor(p, stmt, s, d', f') == ExecFor(p, stmt, s, d, f)
    decreases f, stmt, 0
  {
    hide EvalExpr, ExecStmts;
    var x := stmt.name;
    MoreForExpr(p, stmt.end, s, d, f, d', f');
    var re := EvalExpr(p, stmt.end, s, d, f);
    if if stmt.kind.Exclusive? then s.vars[x] < re.v else s.vars[x] <= re.v {
      MoreForStmts(p, stmt.body, s.(out := re.out), d, f, d', f');
      var rb := ExecStmts(p, stmt.body, s.(out := re.out), d, f);
      if rb.flow.Next? || rb.flow.Continued? {
        var inc := Value(1, rb.st.out);
        if stmt.step.Some? {
          MoreForExpr(p, stmt.step.value, rb.st, d, f, d', f');
          inc := EvalExpr(p, stmt.step.value, rb.st, d, f);
        }
        MoreForRounds(p, stmt, Store(rb.st.vars[x := Wrap32(rb.st.vars[x] + inc.v)], inc.out), d, f - 1, d', f' - 1);
      }
    }
  }

  /** Two finishing evaluations of a program print the same text, whatever their bounds. */
  lemma OutputUnique(p: Program, d1: nat, f1: nat, d2: nat, f2: nat)
    requires RunMain(p, d1, f1).Some? && RunMain(p, d2, f2).Some?
    ensures RunMain(p, d1, f1) == RunMain(p, d2, f2)
  {
    hide CallFn;
    var d, f := if d1 > d2 then d1 else d2, if f1 > f2 then f1 else f2;
    var m := FindFn(p.fns, "main").value;
    MoreForFn(p, m, [], [], d1, f1, d, f);
    MoreForFn(p, m, [], [], d2, f2, d, f);
  }
}
