/**
 * Programs that do not finish. An evaluation that its fuel bound cuts off goes with a run of the
 * machine of at least that many instructions, so a program that would need more than any fuel
 * keeps the machine running for ever.
 */
module HeliosDivergence {
  import opened Bits
  import opened HeliosAst
  import opened Wrappers
  import opened HeliosSemantics
  import opened HeliosCode
  import opened HeliosVm
  import opened HeliosLink
  import opened HeliosCorrect
  import opened HeliosSimulation

  // Evaluations cut off by the fuel bound, and not by a missing value or the bound on calls.

  predicate ExprStarves(p: Program, e: Expr, s: Store, depth: nat, fuel: nat)
    decreases fuel, e, 0
  {
    match e
    case Un(_, a) => ExprStarves(p, a, s, depth, fuel)
    case Cast(a, _) => ExprStarves(p, a, s, depth, fuel)
    case Bin(a, _, b) =>
      var ra := EvalExpr(p, a, s, depth, fuel);
      ExprStarves(p, a, s, depth, fuel) || (ra.Value? && ExprStarves(p, b, s.(out := ra.out), depth, fuel))
    case Call(f, args) =>
      var r, fd := EvalArgs(p, args, s, depth, fuel), FindFn(p.fns, f);
      || ArgsStarve(p, args, s, depth, fuel)
      || (r.Values? && depth > 0 && fd.Some?
          && (fuel == 0 || FnStarves(p, fd.value, r.vs, r.out, depth - 1, fuel - 1)))
    case _ => false
  }

  predicate ArgsStarve(p: Program, args: seq<Expr>, s: Store, depth: nat, fuel: nat)
    decreases fuel, args, 0
  {
    args != [] &&
    var k := |args| - 1;
    var r := EvalArgs(p, args[..k], s, depth, fuel);
    ArgsStarve(p, args[..k], s, depth, fuel)
    || (r.Values? && ExprStarves(p, args[k], s.(out := r.out), depth, fuel))
  }

  predicate FnStarves(p: Program, f: FnDef, vs: seq<i32>, out: seq<u8>, depth: nat, fuel: nat)
    decreases fuel, f.body, 2
  {
    |f.params| == |vs| && StmtsStarve(p, f.body, Store(Bind(f.params, vs), out), depth, fuel)
  }

  predicate StmtsStarve(p: Program, ss: seq<Stmt>, s: Store, depth: nat, fuel: nat)
    decreases fuel, ss, 1
  {
    ss != [] &&
    var k := |ss| - 1;
    var r := ExecStmts(p, ss[..k], s, depth, fuel);
    StmtsStarve(p, ss[..k], s, depth, fuel)
    || (r.End? && r.flow.Next? && StmtStarves(p, ss[k], r.st, depth, fuel))
  }

  /** A round of a loop ends, or it starves, or the next one does. */
  predicate GoesOn(r: StmtResult) {
    r.End? && (r.flow.Next? || r.flow.Continued?)
  }

  predicate StmtStarves(p: Program, stmt: Stmt, s: Store, depth: nat, fuel: nat)
    decreases fuel, stmt, 1
  {
    match stmt
    case Let(_, e) => ExprStarves(p, e, s, depth, fuel)
    case Assign(_, e) => ExprStarves(p, e, s, depth, fuel)
    case CompoundAssign(x, _, e) => x in s.vars && ExprStarves(p, e, s, depth, fuel)
    case If(c, t, e) =>
      var r := EvalExpr(p, c, s, depth, fuel);
      ExprStarves(p, c, s, depth, fuel)
      || (r.Value? && if r.v != 0 then StmtsStarve(p, t, s.(out := r.out), depth, fuel)
                      else StmtsStarve(p, e, s.(out := r.out), depth, fuel))
    case While(c, b) =>
      var r := EvalExpr(p, c, s, depth, fuel);
      ExprStarves(p, c, s, depth, fuel)
      || (r.Value? && r.v != 0
          && var s1 := s.(out := r.out);
          var rb := ExecStmts(p, b, s1, depth, fuel);
          StmtsStarve(p, b, s1, depth, fuel)
          || (GoesOn(rb) && (fuel == 0 || StmtStarves(p, stmt, rb.st, depth, fuel - 1))))
    case Loop(b) =>
      var rb := ExecStmts(p, b, s, depth, fuel);
      StmtsStarve(p, b, s, depth, fuel)
      || (GoesOn(rb) && (fuel == 0 || StmtStarves(p, stmt, rb.st, depth, fuel - 1)))
    case For(x, start, _, _, _, _) =>
      var r := EvalExpr(p, start, s, depth, fuel);
      ExprStarves(p, start, s, depth, fuel)
      || (r.Value? && ForStarves(p, stmt, Store(s.vars[x := r.v], r.out), depth, fuel))
    case Match(e, arms) =>
      var r := EvalExpr(p, e, s, depth, fuel);
      ExprStarves(p, e, s, depth, fuel)
      || (r.Value? && var k := ArmFor(arms, r.v);
          k < |arms| && StmtsStarve(p, arms[k].body, s.(out := r.out), depth, fuel))
    case Return(e) => ExprStarves(p, e, s, depth, fuel)
    case Print(e) => !e.StrLit? && ExprStarves(p, e, s, depth, fuel)
    case ExprStmt(e) => ExprStarves(p, e, s, depth, fuel)
    case _ => false
  }

  predicate ForStarves(p: Program, stmt: Stmt, s: Store, depth: nat, fuel: nat)
    requires stmt.For?
    decreases fuel, stmt, 0
  {
    var x := stmt.name;
    x in s.vars &&
    var re := EvalExpr(p, stmt.end, s, depth, fuel);
    ExprStarves(p, stmt.end, s, depth, fuel)
    || (re.Value? && InRange(stmt.kind, s.vars[x], re.v)
        && var s1 := s.(out := re.out);
        var rb := ExecStmts(p, stmt.body, s1, depth, fuel);
        StmtsStarve(p, stmt.body, s1, depth, fuel)
        || (GoesOn(rb) && x in rb.st.vars
            && (fuel == 0
                || (stmt.step.Some? && ExprStarves(p, stmt.step.value, rb.st, depth, fuel))
                || var inc := Increment(p, stmt.step, rb.st, depth, fuel);
                   inc.Value? && ForStarves(p, stmt, Raised(x, rb.st, inc),
                                            depth, fuel - 1))))
  }

  function Increment(p: Program, step: Option<Expr>, s: Store, depth: nat, fuel: nat): ExprResult {
    if step.None? then Value(1, s.out) else EvalExpr(p, step.value, s, depth, fuel)
  }

  /** The store after the variable of a `for` loop has been increased. */
  function Raised(x: string, s: Store, inc: ExprResult): Store
    requires x in s.vars && inc.Value?
  {
    Store(s.vars[x := Wrap32(s.vars[x] + inc.v)], inc.out)
  }

  /** `main` is cut off by the fuel bound. */
  predicate Starves(p: Program, depth: nat, fuel: nat) {
    var m := FindFn(p.fns, "main");
    m.Some? && FnStarves(p, m.value, [], [], depth, fuel)
  }

  // An evaluation with a result does not starve.

  lemma {:induction false} ExprFed(p: Program, e: Expr, s: Store, d: nat, f: nat)
    requires EvalExpr(p, e, s, d, f).Value?
    ensures !ExprStarves(p, e, s, d, f)
    decreases f, e, 0
  {
    match e
    case Un(_, a) => ExprFed(p, a, s, d, f);
    case Cast(a, _) => ExprFed(p, a, s, d, f);
    case Bin(a, _, b) =>
      ExprFed(p, a, s, d, f);
      ExprFed(p, b, s.(out := EvalExpr(p, a, s, d, f).out), d, f);
    case Call(g, args) =>
      ArgsFed(p, args, s, d, f);
      var r := EvalArgs(p, args, s, d, f);
      FnFed(p, FindFn(p.fns, g).value, r.vs, r.out, d - 1, f - 1);
    case _ =>
  }

  lemma {:induction false} ArgsFed(p: Program, args: seq<Expr>, s: Store, d: nat, f: nat)
    requires EvalArgs(p, args, s, d, f).Values?
    ensures !ArgsStarve(p, args, s, d, f)
    decreases f, args, 0
  {
    if args != [] {
      var k := |args| - 1;
      ArgsFed(p, args[..k], s, d, f);
      ExprFed(p, args[k], s.(out := EvalArgs(p, args[..k], s, d, f).out), d, f);
    }
  }

  lemma {:induction false} FnFed(p: Program, g: FnDef, vs: seq<i32>, out: seq<u8>, d: nat, f: nat)
    requires CallFn(p, g, vs, out, d, f).Value?
    ensures !FnStarves(p, g, vs, out, d, f)
    decreases f, g.body, 2
  {
    StmtsFed(p, g.body, Store(Bind(g.params, vs), out), d, f);
  }

  lemma {:induction false} StmtsFed(p: Program, ss: seq<Stmt>, s: Store, d: nat, f: nat)
    requires ExecStmts(p, ss, s, d, f).End?
    ensures !StmtsStarve(p, ss, s, d, f)
    decreases f, ss, 1
  {
    hide ExecStmt, StmtStarves;
    if ss != [] {
      var k := |ss| - 1;
      StmtsFed(p, ss[..k], s, d, f);
      var r := ExecStmts(p, ss[..k], s, d, f);
      if r.flow.Next? {
        StmtFed(p, ss[k], r.st, d, f);
      }
    }
  }

  lemma {:induction false} StmtFed(p: Program, stmt: Stmt, s: Store, d: nat, f: nat)
    requires ExecStmt(p, stmt, s, d, f).End?
    ensures !StmtStarves(p, stmt, s, d, f)
    decreases f, stmt, 1
  {
    hide EvalExpr, ExecStmts, ExecFor, ExprStarves, StmtsStarve, ForStarves;
    match stmt
    case Let(_, e) => ExprFed(p, e, s, d, f);
    case Assign(_, e) => ExprFed(p, e, s, d, f);
    case CompoundAssign(_, _, e) => ExprFed(p, e, s, d, f);
    case If(c, t, e) =>
      ExprFed(p, c, s, d, f);
      var r := EvalExpr(p, c, s, d, f);
      StmtsFed(p, if r.v != 0 then t else e, s.(out := r.out), d, f);
    case While(c, b) =>
      ExprFed(p, c, s, d, f);
      var r := EvalExpr(p, c, s, d, f);
      if r.v != 0 {
        RoundFed(p, stmt, b, s.(out := r.out), d, f);
      }
    case Loop(b) => RoundFed(p, stmt, b, s, d, f);
    case For(x, start, _, _, _, _) =>
      ExprFed(p, start, s, d, f);
      var r := EvalExpr(p, start, s, d, f);
      ForFed(p, stmt, Store(s.vars[x := r.v], r.out), d, f);
    case Match(e, arms) =>
      ExprFed(p, e, s, d, f);
      var r := EvalExpr(p, e, s, d, f);
      var k := ArmFor(arms, r.v);
      if k < |arms| {
        StmtsFed(p, arms[k].body, s.(out := r.out), d, f);
      }
    case Return(e) => ExprFed(p, e, s, d, f);
    case Print(e) =>
      if !e.StrLit? {
        ExprFed(p, e, s, d, f);
      }
    case ExprStmt(e) => ExprFed(p, e, s, d, f);
    case _ =>
  }

  /** One round of a loop, and what comes after it. */
  lemma {:induction false} RoundFed(p: Program, stmt: Stmt, b: seq<Stmt>, s: Store, d: nat, f: nat)
    requires ExecStmts(p, b, s, d, f).End?
    requires GoesOn(ExecStmts(p, b, s, d, f)) ==> f > 0 && ExecStmt(p, stmt, ExecStmts(p, b, s, d, f).st, d, f - 1).End?
    requires (stmt.While? || stmt.Loop?) && stmt.body == b
    ensures !StmtsStarve(p, b, s, d, f)
    ensures var r := ExecStmts(p, b, s, d, f);
            GoesOn(r) ==> f > 0 && !StmtStarves(p, stmt, r.st, d, f - 1)
    decreases f, stmt, 0
  {
    hide ExecStmts, ExecStmt, StmtsStarve, StmtStarves;
    StmtsFed(p, b, s, d, f);
    var r := ExecStmts(p, b, s, d, f);
    if GoesOn(r) {
      StmtFed(p, stmt, r.st, d, f - 1);
    }
  }

  lemma {:induction false} ForFed(p: Program, stmt: Stmt, s: Store, d: nat, f: nat)
    requires stmt.For? && ExecFor(p, stmt, s, d, f).End?
    ensures !ForStarves(p, stmt, s, d, f)
    decreases f, stmt, 0
  {
    hide EvalExpr, ExecStmts, ExprStarves, StmtsStarve;
    var x := stmt.name;
    ExprFed(p, stmt.end, s, d, f);
    var re := EvalExpr(p, stmt.end, s, d, f);
    if InRange(stmt.kind, s.vars[x], re.v) {
      StmtsFed(p, stmt.body, s.(out := re.out), d, f);
      var rb := ExecStmts(p, stmt.body, s.(out := re.out), d, f);
      if GoesOn(rb) {
        if stmt.step.Some? {
          ExprFed(p, stmt.step.value, rb.st, d, f);
        }
        var inc := Increment(p, stmt.step, rb.st, d, f);
        ForFed(p, stmt, Raised(x, rb.st, inc), d, f - 1);
      }
    }
  }

  // More fuel does not change an evaluation that does not starve.

  lemma {:induction false} ExprFinal(p: Program, e: Expr, s: Store, d: nat, f: nat, g: nat)
    requires f <= g && !ExprStarves(p, e, s, d, f)
    ensures EvalExpr(p, e, s, d, g) == EvalExpr(p, e, s, d, f) && !ExprStarves(p, e, s, d, g)
    decreases f, e, 0
  {
    match e
    case Un(_, a) => ExprFinal(p, a, s, d, f, g);
    case Cast(a, _) => ExprFinal(p, a, s, d, f, g);
    case Bin(a, _, b) =>
      ExprFinal(p, a, s, d, f, g);
      var ra := EvalExpr(p, a, s, d, f);
      if ra.Value? {
        ExprFinal(p, b, s.(out := ra.out), d, f, g);
      }
    case Call(c, args) =>
      ArgsFinal(p, args, s, d, f, g);
      var r, fd := EvalArgs(p, args, s, d, f), FindFn(p.fns, c);
      if r.Values? && d > 0 && fd.Some? {
        FnFinal(p, fd.value, r.vs, r.out, d - 1, f - 1, g - 1);
      }
    case _ =>
  }

  lemma {:induction false} ArgsFinal(p: Program, args: seq<Expr>, s: Store, d: nat, f: nat, g: nat)
    requires f <= g && !ArgsStarve(p, args, s, d, f)
    ensures EvalArgs(p, args, s, d, g) == EvalArgs(p, args, s, d, f) && !ArgsStarve(p, args, s, d, g)
    decreases f, args, 0
  {
    if args != [] {
      var k := |args| - 1;
      ArgsFinal(p, args[..k], s, d, f, g);
      var r := EvalArgs(p, args[..k], s, d, f);
      if r.Values? {
        ExprFinal(p, args[k], s.(out := r.out), d, f, g);
      }
    }
  }

  lemma {:induction false} FnFinal(p: Program, c: FnDef, vs: seq<i32>, out: seq<u8>, d: nat, f: nat, g: nat)
    requires f <= g && !FnStarves(p, c, vs, out, d, f)
    ensures CallFn(p, c, vs, out, d, g) == CallFn(p, c, vs, out, d, f) && !FnStarves(p, c, vs, out, d, g)
    decreases f, c.body, 2
  {
    if |c.params| == |vs| {
      StmtsFinal(p, c.body, Store(Bind(c.params, vs), out), d, f, g);
    }
  }

  lemma {:induction false} StmtsFinal(p: Program, ss: seq<Stmt>, s: Store, d: nat, f: nat, g: nat)
    requires f <= g && !StmtsStarve(p, ss, s, d, f)
    ensures ExecStmts(p, ss, s, d, g) == ExecStmts(p, ss, s, d, f) && !StmtsStarve(p, ss, s, d, g)
    decreases f, ss, 1
  {
    hide ExecStmt, StmtStarves;
    if ss != [] {
      var k := |ss| - 1;
      StmtsFinal(p, ss[..k], s, d, f, g);
      var r := ExecStmts(p, ss[..k], s, d, f);
      if r.End? && r.flow.Next? {
        StmtFinal(p, ss[k], r.st, d, f, g);
      }
    }
  }

  lemma {:induction false} StmtFinal(p: Program, stmt: Stmt, s: Store, d: nat, f: nat, g: nat)
    requires f <= g && !StmtStarves(p, stmt, s, d, f)
    ensures ExecStmt(p, stmt, s, d, g) == ExecStmt(p, stmt, s, d, f) && !StmtStarves(p, stmt, s, d, g)
    decreases f, stmt, 1
  {
    hide EvalExpr, ExecStmts, ExecFor, ExprStarves, StmtsStarve, ForStarves, BinVal, CompoundOp, I32Text, UpToNul;
    match stmt
    case Let(_, e) => ExprFinal(p, e, s, d, f, g);
    case Assign(_, e) => ExprFinal(p, e, s, d, f, g);
    case CompoundAssign(x, _, e) =>
      if x in s.vars {
        ExprFinal(p, e, s, d, f, g);
      }
    case If(c, t, e) =>
      ExprFinal(p, c, s, d, f, g);
      var r := EvalExpr(p, c, s, d, f);
      if r.Value? {
        StmtsFinal(p, if r.v != 0 then t else e, s.(out := r.out), d, f, g);
      }
    case While(c, b) =>
      ExprFinal(p, c, s, d, f, g);
      var r := EvalExpr(p, c, s, d, f);
      if r.Value? && r.v != 0 {
        RoundFinal(p, stmt, b, s.(out := r.out), d, f, g);
      }
    case Loop(b) => RoundFinal(p, stmt, b, s, d, f, g);
    case For(x, start, _, _, _, _) =>
      ExprFinal(p, start, s, d, f, g);
      var r := EvalExpr(p, start, s, d, f);
      if r.Value? {
        ForFinal(p, stmt, Store(s.vars[x := r.v], r.out), d, f, g);
      }
    case Match(e, arms) =>
      ExprFinal(p, e, s, d, f, g);
      var r := EvalExpr(p, e, s, d, f);
      if r.Value? && ArmFor(arms, r.v) < |arms| {
        StmtsFinal(p, arms[ArmFor(arms, r.v)].body, s.(out := r.out), d, f, g);
      }
    case Return(e) => ExprFinal(p, e, s, d, f, g);
    case Print(e) =>
      if !e.StrLit? {
        ExprFinal(p, e, s, d, f, g);
      }
    case ExprStmt(e) => ExprFinal(p, e, s, d, f, g);
    case _ =>
  }

  lemma {:induction false} RoundFinal(p: Program, stmt: Stmt, b: seq<Stmt>, s: Store, d: nat, f: nat, g: nat)
    requires f <= g && (stmt.While? || stmt.Loop?) && stmt.body == b && !StmtsStarve(p, b, s, d, f)
    requires var r := ExecStmts(p, b, s, d, f); GoesOn(r) ==> f > 0 && !StmtStarves(p, stmt, r.st, d, f - 1)
    ensures ExecStmts(p, b, s, d, g) == ExecStmts(p, b, s, d, f) && !StmtsStarve(p, b, s, d, g)
    ensures var r := ExecStmts(p, b, s, d, f);
            GoesOn(r) ==> f > 0 && ExecStmt(p, stmt, r.st, d, g - 1) == ExecStmt(p, stmt, r.st, d, f - 1)
                          && !StmtStarves(p, stmt, r.st, d, g - 1)
    decreases f, stmt, 0
  {
    hide ExecStmts, ExecStmt, StmtsStarve, StmtStarves;
    StmtsFinal(p, b, s, d, f, g);
    var r := ExecStmts(p, b, s, d, f);
    if GoesOn(r) {
      StmtFinal(p, stmt, r.st, d, f - 1, g - 1);
    }
  }

  lemma {:induction false} ForFinal(p: Program, stmt: Stmt, s: Store, d: nat, f: nat, g: nat)
    requires f <= g && stmt.For? && !ForStarves(p, stmt, s, d, f)
    ensures ExecFor(p, stmt, s, d, g) == ExecFor(p, stmt, s, d, f) && !ForStarves(p, stmt, s, d, g)
    decreases f, stmt, 0
  {
    hide EvalExpr, ExecStmts, ExprStarves, StmtsStarve;
    var x := stmt.name;
    if x in s.vars {
      ExprFinal(p, stmt.end, s, d, f, g);
      var re := EvalExpr(p, stmt.end, s, d, f);
      if re.Value? && InRange(stmt.kind, s.vars[x], re.v) {
        var s1 := s.(out := re.out);
        StmtsFinal(p, stmt.body, s1, d, f, g);
        var rb := ExecStmts(p, stmt.body, s1, d, f);
        if GoesOn(rb) && x in rb.st.vars {
          ForNextFinal(p, stmt, rb.st, d, f, g);
        }
      }
    }
  }

  lemma {:induction false} ForNextFinal(p: Program, stmt: Stmt, s: Store, d: nat, f: nat, g: nat)
    requires 0 < f <= g && stmt.For? && stmt.name in s.vars
    requires stmt.step.Some? ==> !ExprStarves(p, stmt.step.value, s, d, f)
    requires var inc := Increment(p, stmt.step, s, d, f);
             inc.Value? ==> !ForStarves(p, stmt, Raised(stmt.name, s, inc), d, f - 1)
    ensures stmt.step.Some? ==> !ExprStarves(p, stmt.step.value, s, d, g)
    ensures var inc := Increment(p, stmt.step, s, d, f);
            && Increment(p, stmt.step, s, d, g) == inc
            && (inc.Value? ==>
                  var next := Raised(stmt.name, s, inc);
                  ExecFor(p, stmt, next, d, g - 1) == ExecFor(p, stmt, next, d, f - 1)
                  && !ForStarves(p, stmt, next, d, g - 1))
    decreases f, stmt.step, 0
  {
    hide EvalExpr, ExecFor, ExprStarves, ForStarves;
    if stmt.step.Some? {
      ExprFinal(p, stmt.step.value, s, d, f, g);
    }
    var inc := Increment(p, stmt.step, s, d, f);
    if inc.Value? {
      ForFinal(p, stmt, Raised(stmt.name, s, inc), d, f - 1, g - 1);
    }
  }

  /** A program that finishes does not starve, and more fuel changes nothing for one that does not starve. */
  lemma StarvesOrFinal(p: Program, depth: nat, fuel: nat, more: nat)
    requires fuel <= more
    ensures RunMain(p, depth, fuel).Some? ==> !Starves(p, depth, fuel)
    ensures !Starves(p, depth, fuel) ==> RunMain(p, depth, more) == RunMain(p, depth, fuel) && !Starves(p, depth, more)
  {
    hide CallFn, FnStarves;
    var m := FindFn(p.fns, "main");
    if m.Some? {
      if CallFn(p, m.value, [], [], depth, fuel).Value? {
        FnFed(p, m.value, [], [], depth, fuel);
      }
      if !Starves(p, depth, fuel) {
        FnFinal(p, m.value, [], [], depth, fuel, more);
      }
    }
  }

  // Long runs.

  /** The machine runs n instructions without stopping. */
  ghost predicate Runs(m: Machine, st: State, n: nat) {
    Steps(m, st, n).Some?
  }

  lemma {:induction false} RunsLess(m: Machine, st: State, a: nat, b: nat)
    requires Runs(m, st, b) && a <= b
    ensures Runs(m, st, a)
    decreases a
  {
    hide Step;
    if a > 0 {
      RunsLess(m, Step(m, st).st, a - 1, b - 1);
    }
  }

  lemma RunsOn(m: Machine, st: State, k: nat, st1: State, n: nat, goal: nat)
    requires Steps(m, st, k) == Some(st1) && Runs(m, st1, n) && goal <= k + n
    ensures Runs(m, st, goal)
  {
    hide Step;
    StepsCompose(m, st, k, st1, n, Steps(m, st1, n).value);
    RunsLess(m, st, goal, k + n);
  }

  lemma RunsNone(m: Machine, st: State)
    ensures Runs(m, st, 0)
  {
  }

  // A starving evaluation keeps the machine busy.

  lemma {:induction false} MarchExpr(l: Linked, n: Names, e: Expr, s: Store, st: State, depth: nat, fuel: nat)
    requires ExprAt(l, n, e, s, st, depth) && ExprStarves(l.p, e, s, depth, fuel)
    ensures Runs(l.m, st, fuel)
    decreases fuel, e, 1
  {
    hide Step, HasCells, ValidLinked, Rel, Runs, BinByte, UnByte, CastByte, StackNeed;
    match e
    case Un(op, a) =>
      SplitCells(l.m.code, st.pc, ExprCells(n, a), Op(UnByte(op)), l.entries);
      MarchExpr(l, n, a, s, st, depth, fuel);
    case Cast(a, t) =>
      SplitCells(l.m.code, st.pc, ExprCells(n, a), Op(CastByte(t)), l.entries);
      MarchExpr(l, n, a, s, st, depth, fuel);
    case Bin(_, _, _) => MarchBin(l, n, e, s, st, depth, fuel);
    case Call(_, _) => MarchCall(l, n, e, s, st, depth, fuel);
  }

  lemma {:induction false} MarchBin(l: Linked, n: Names, e: Expr, s: Store, st: State, depth: nat, fuel: nat)
    requires e.Bin? && ExprAt(l, n, e, s, st, depth) && ExprStarves(l.p, e, s, depth, fuel)
    ensures Runs(l.m, st, fuel)
    decreases fuel, e, 0
  {
    hide Step, HasCells, ValidLinked, Holds, Runs, BinByte, UnByte, CastByte, StackNeed;
    var a, op, b := e.left, e.bop, e.right;
    SplitCells(l.m.code, st.pc, ExprCells(n, a) + ExprCells(n, b), Op(BinByte(op)), l.entries);
    SplitCells(l.m.code, st.pc, ExprCells(n, a), ExprCells(n, b), l.entries);
    if ExprStarves(l.p, a, s, depth, fuel) {
      MarchExpr(l, n, a, s, st, depth, fuel);
    } else {
      var ra := EvalExpr(l.p, a, s, depth, fuel);
      var k1, st1 := SimExpr(l, n, a, s, st, depth, fuel);
      RelAbove(n, s, st, st1, ra.out);
      MarchExpr(l, n, b, s.(out := ra.out), st1, depth, fuel);
      RunsOn(l.m, st, k1, st1, fuel, fuel);
    }
  }

  lemma {:induction false} MarchArgs(l: Linked, n: Names, args: seq<Expr>, s: Store, st: State, depth: nat, fuel: nat)
    requires Env(l, n)
    requires (forall i :: 0 <= i < |args| ==> WfExpr(l.p, args[i])) && CoversArgs(n, args)
    requires HasCells(l.m.code, st.pc, ArgsCells(n, args), l.entries)
    requires Rel(n, s, st) && Room(l, st, depth, ArgsDepth(args))
    requires ArgsStarve(l.p, args, s, depth, fuel)
    ensures Runs(l.m, st, fuel)
    decreases fuel, args, 0
  {
    hide Step, HasCells, ExprCells, ExprLen, EvalExpr, ExprDepth, CoversExpr, WfExpr, ValidLinked, Runs, ExprStarves,
         StackNeed;
    var j := |args| - 1;
    SplitCells(l.m.code, st.pc, ArgsCells(n, args[..j]), ExprCells(n, args[j]), l.entries);
    if ArgsStarve(l.p, args[..j], s, depth, fuel) {
      MarchArgs(l, n, args[..j], s, st, depth, fuel);
    } else {
      var r1 := EvalArgs(l.p, args[..j], s, depth, fuel);
      var k1, st1 := SimArgs(l, n, args[..j], s, st, depth, fuel);
      RelAbove(n, s, st, st1, r1.out);
      MarchExpr(l, n, args[j], s.(out := r1.out), st1, depth, fuel);
      RunsOn(l.m, st, k1, st1, fuel, fuel);
    }
  }

  lemma {:induction false} MarchCall(l: Linked, n: Names, e: Expr, s: Store, st: State, depth: nat, fuel: nat)
    requires e.Call? && ExprAt(l, n, e, s, st, depth) && ExprStarves(l.p, e, s, depth, fuel)
    ensures Runs(l.m, st, fuel)
    decreases fuel, e, 0
  {
    hide Step, Decode, HasCells, ValidLinked, Holds, StmtsCells, FnNames, CoversStmts, CallFn, Bind, Runs;
    var f, args := e.fname, e.args;
    if ArgsStarve(l.p, args, s, depth, fuel) {
      SplitCells(l.m.code, st.pc, ArgsCells(n, args) + OpImm(PUSH, |args|), OpRef(CALL, FnEntry(f)), l.entries);
      SplitCells(l.m.code, st.pc, ArgsCells(n, args), OpImm(PUSH, |args|), l.entries);
      MarchArgs(l, n, args, s, st, depth, fuel);
    } else if fuel == 0 {
      RunsNone(l.m, st);
    } else {
      var ra := EvalArgs(l.p, args, s, depth, fuel);
      var fd := FindFn(l.p.fns, f).value;
      LinkedFn(l, f);
      var k1, st1 := SimCallEnter(l, n, e, s, st, depth, fuel);
      FrameRel(SlotsOf(l.p.consts, fd), NamesOf(l, fd), fd.params, ra.vs, st1);
      assert StackNeed(l.k, depth) == l.k + StackNeed(l.k, depth - 1);
      MarchFn(l, f, ra.vs, st1, depth - 1, fuel - 1);
      assert k1 > 0;
      RunsOn(l.m, st, k1, st1, fuel - 1, fuel);
    }
  }

  lemma {:induction false} MarchFn(l: Linked, f: string, vs: seq<i32>, st: State, depth: nat, fuel: nat)
    requires ValidLinked(l) && FindFn(l.p.fns, f).Some?
    requires var fd := FindFn(l.p.fns, f).value;
             && |vs| == |fd.params|
             && Rel(NamesOf(l, fd), Store(Bind(fd.params, vs), st.out), st)
             && FnStarves(l.p, fd, vs, st.out, depth, fuel)
    requires st.pc == EntryAddr(l.entries, f) && st.sp == st.fp + |vs|
    requires st.fp + StackNeed(l.k, depth) <= |st.stack| < 0x8000_0000 && |st.frames| + depth <= VM_DEPTH
    ensures Runs(l.m, st, fuel)
    decreases fuel, FindFn(l.p.fns, f).value.body, 3
  {
    hide Step, HasCells, StmtsCells, StmtsLen, StmtsStarve, WfStmts, CoversStmts, StmtsDepth, Bind, FnNames, Runs;
    assert FnLinked(l, f);
    var fd := FindFn(l.p.fns, f).value;
    var n := NamesOf(l, fd);
    var body := StmtsCells(n, fd.body, st.pc, At(0), At(0));
    SplitCells(l.m.code, st.pc, body + OpImm(PUSH, 0), Op(RET), l.entries);
    SplitCells(l.m.code, st.pc, body, OpImm(PUSH, 0), l.entries);
    assert StackNeed(l.k, depth) >= l.k;
    MarchStmts(l, n, fd.body, Store(Bind(fd.params, vs), st.out), st, depth, fuel, 0, 0, false);
  }

  lemma {:induction false} MarchStmts(l: Linked, n: Names, ss: seq<Stmt>, s: Store, st: State, depth: nat, fuel: nat,
                                      brk: nat, cont: nat, inLoop: bool)
    requires Env(l, n)
    requires WfStmts(l.p, ss, inLoop) && CoversStmts(n, ss)
    requires HasCells(l.m.code, st.pc, StmtsCells(n, ss, st.pc, At(brk), At(cont)), l.entries)
    requires brk < 0x1_0000_0000 && cont < 0x1_0000_0000
    requires Rel(n, s, st) && FrameRoom(l, n, st, depth, StmtsDepth(ss))
    requires StmtsStarve(l.p, ss, s, depth, fuel)
    ensures Runs(l.m, st, fuel)
    decreases fuel, ss, 2
  {
    hide Step, Decode, ExecStmt, StmtCells, StmtLen, StmtDepth, CoversStmt, WfStmt, HasCells, Rel, FindFn, ValidLinked,
         StmtStarves, Runs, StackNeed;
    var j := |ss| - 1;
    var a, b := StmtsCells(n, ss[..j], st.pc, At(brk), At(cont)),
                StmtCells(n, ss[j], st.pc + StmtsLen(ss[..j]), At(brk), At(cont));
    SplitCells(l.m.code, st.pc, a, b, l.entries);
    if StmtsStarve(l.p, ss[..j], s, depth, fuel) {
      MarchStmts(l, n, ss[..j], s, st, depth, fuel, brk, cont, inLoop);
    } else {
      var r1 := ExecStmts(l.p, ss[..j], s, depth, fuel);
      var k1, st1 := SimStmts(l, n, ss[..j], s, st, depth, fuel, brk, cont, inLoop);
      MarchStmt(l, n, ss[j], r1.st, st1, depth, fuel, brk, cont, inLoop);
      RunsOn(l.m, st, k1, st1, fuel, fuel);
    }
  }

  lemma {:induction false} MarchStmt(l: Linked, n: Names, stmt: Stmt, s: Store, st: State, depth: nat, fuel: nat,
                                     brk: nat, cont: nat, inLoop: bool)
    requires StmtAt(l, n, stmt, s, st, depth, brk, cont, inLoop) && StmtStarves(l.p, stmt, s, depth, fuel)
    ensures Runs(l.m, st, fuel)
    decreases fuel, stmt, 2
  {
    hide StmtAt, Runs;
    match stmt
    case If(_, _, _) => MarchIf(l, n, stmt, s, st, depth, fuel, brk, cont, inLoop);
    case While(_, _) => MarchWhile(l, n, stmt, s, st, depth, fuel, brk, cont, inLoop);
    case Loop(_) => MarchLoop(l, n, stmt, s, st, depth, fuel, brk, cont, inLoop);
    case For(_, _, _, _, _, _) => MarchFor(l, n, stmt, s, st, depth, fuel, brk, cont, inLoop);
    case Match(_, _) => MarchMatch(l, n, stmt, s, st, depth, fuel, brk, cont, inLoop);
    case CompoundAssign(_, _, _) => MarchCompound(l, n, stmt, s, st, depth, fuel, brk, cont, inLoop);
    case Let(_, _) => MarchPlain(l, n, stmt, s, st, depth, fuel, brk, cont, inLoop);
    case Assign(_, _) => MarchPlain(l, n, stmt, s, st, depth, fuel, brk, cont, inLoop);
    case Return(_) => MarchPlain(l, n, stmt, s, st, depth, fuel, brk, cont, inLoop);
    case Print(_) => MarchPlain(l, n, stmt, s, st, depth, fuel, brk, cont, inLoop);
    case ExprStmt(_) => MarchPlain(l, n, stmt, s, st, depth, fuel, brk, cont, inLoop);
    case _ =>
  }

  /** The expression that a statement's code starts with. */
  function FirstExpr(stmt: Stmt): Option<Expr> {
    match stmt
    case Let(_, e) => Some(e)
    case Assign(_, e) => Some(e)
    case If(c, _, _) => Some(c)
    case While(c, _) => Some(c)
    case For(_, start, _, _, _, _) => Some(start)
    case Match(e, _) => Some(e)
    case Return(e) => Some(e)
    case Print(e) => Some(e)
    case ExprStmt(e) => Some(e)
    case _ => None
  }

  lemma FirstExprAt(l: Linked, n: Names, stmt: Stmt, s: Store, st: State, depth: nat, brk: nat, cont: nat, inLoop: bool)
    requires StmtAt(l, n, stmt, s, st, depth, brk, cont, inLoop) && FirstExpr(stmt).Some?
    ensures ExprAt(l, n, FirstExpr(stmt).value, s, st, depth)
  {
    hide ValidLinked, Rel, ExprCells, StmtsCells, ArmsCells, ForCells, ExprLen, StmtsLen, ArmsLen, WfExpr, WfStmts,
         CoversExpr, CoversStmts, CoversArms, ExprDepth, StmtsDepth, ArmsDepth, StackNeed, Le32, IndexOf;
    FrameRoomGivesRoom(l, n, st, depth, StmtDepth(stmt));
    FirstCells(l, st.pc, ExprCells(n, FirstExpr(stmt).value), StmtCells(n, stmt, st.pc, At(brk), At(cont)));
  }

  lemma FirstCells(l: Linked, pc: nat, a: seq<Cell>, whole: seq<Cell>)
    requires HasCells(l.m.code, pc, whole, l.entries) && a <= whole
    ensures HasCells(l.m.code, pc, a, l.entries)
  {
    hide HasCells;
    assert whole == a + whole[|a|..];
    SplitCells(l.m.code, pc, a, whole[|a|..], l.entries);
  }

  /** A statement that can only starve in the expression its code starts with. */
  lemma {:induction false} MarchPlain(l: Linked, n: Names, stmt: Stmt, s: Store, st: State, depth: nat, fuel: nat,
                                      brk: nat, cont: nat, inLoop: bool)
    requires StmtAt(l, n, stmt, s, st, depth, brk, cont, inLoop)
    requires FirstExpr(stmt).Some? && ExprStarves(l.p, FirstExpr(stmt).value, s, depth, fuel)
    ensures Runs(l.m, st, fuel)
    decreases fuel, stmt, 0
  {
    hide StmtAt, ExprAt, ExprStarves, Runs;
    FirstExprAt(l, n, stmt, s, st, depth, brk, cont, inLoop);
    MarchExpr(l, n, FirstExpr(stmt).value, s, st, depth, fuel);
  }

  lemma {:induction false} MarchCompound(l: Linked, n: Names, stmt: Stmt, s: Store, st: State, depth: nat, fuel: nat,
                                         brk: nat, cont: nat, inLoop: bool)
    requires stmt.CompoundAssign? && StmtAt(l, n, stmt, s, st, depth, brk, cont, inLoop)
    requires StmtStarves(l.p, stmt, s, depth, fuel)
    ensures Runs(l.m, st, fuel)
    decreases fuel, stmt, 1
  {
    hide Step, Decode, CompoundOp, HasCells, ExprCells, EvalExpr, ExprLen, ValidLinked, Holds, BinByte, UnByte,
         CastByte, ExprStarves, StackNeed, Runs;
    FrameRoomGivesRoom(l, n, st, depth, StmtDepth(stmt));
    var x, e, op := stmt.name, stmt.rhs, CompoundOp(stmt.cop);
    var i := IndexOf(n.locals, x);
    Split4(l, st.pc, OpImm(LOADLOCAL, i), ExprCells(n, e), Op(BinByte(op)), OpImm(STORELOCAL, i));
    assert Holds(n, x, s.vars[x], st);
    var k1, st1 := SimLoad(l, n, x, s.vars[x], st);
    RelAbove(n, s, st, st1, st.out);
    MarchExpr(l, n, e, s, st1, depth, fuel);
    RunsOn(l.m, st, k1, st1, fuel, fuel);
  }

  lemma {:induction false} MarchIf(l: Linked, n: Names, stmt: Stmt, s: Store, st: State, depth: nat, fuel: nat,
                                   brk: nat, cont: nat, inLoop: bool)
    requires stmt.If? && StmtAt(l, n, stmt, s, st, depth, brk, cont, inLoop) && StmtStarves(l.p, stmt, s, depth, fuel)
    ensures Runs(l.m, st, fuel)
    decreases fuel, stmt, 1
  {
    hide Step, Decode, Rel, ExprCells, StmtsCells, EvalExpr, ExecStmts, ExprLen, StmtsLen, WfExpr, WfStmts,
         CoversExpr, CoversStmts, HasCells, ValidLinked, StackNeed, ExprStarves, StmtsStarve, Runs;
    var c, t, e := stmt.cond, stmt.thn, stmt.els;
    if ExprStarves(l.p, c, s, depth, fuel) {
      MarchPlain(l, n, stmt, s, st, depth, fuel, brk, cont, inLoop);
    } else {
      FrameRoomGivesRoom(l, n, st, depth, StmtDepth(stmt));
      var tbase := st.pc + ExprLen(c) + 5;
      var ebase := tbase + StmtsLen(t) + 5;
      var end := ebase + StmtsLen(e);
      Split5(l, st.pc, ExprCells(n, c), OpRef(JZ, At(ebase)), StmtsCells(n, t, tbase, At(brk), At(cont)),
             OpRef(JMP, At(end)), StmtsCells(n, e, ebase, At(brk), At(cont)));
      CodeBound(l, ebase, StmtsCells(n, e, ebase, At(brk), At(cont)));
      var r := EvalExpr(l.p, c, s, depth, fuel);
      var s1 := s.(out := r.out);
      var k1, st1 := SimCond(l, n, c, s, st, depth, fuel, ebase);
      MarchStmts(l, n, if r.v != 0 then t else e, s1, st1, depth, fuel, brk, cont, inLoop);
      RunsOn(l.m, st, k1, st1, fuel, fuel);
    }
  }

  lemma CodeBound(l: Linked, pc: nat, cs: seq<Cell>)
    requires HasCells(l.m.code, pc, cs, l.entries) && ValidLinked(l)
    ensures pc + |cs| < 0x1_0000_0000
  {
  }

  lemma CodeSize(l: Linked)
    requires ValidLinked(l)
    ensures |l.m.code| < 0x1_0000_0000
  {
  }

  lemma {:induction false} MarchWhile(l: Linked, n: Names, stmt: Stmt, s: Store, st: State, depth: nat, fuel: nat,
                                      brk: nat, cont: nat, inLoop: bool)
    requires stmt.While? && StmtAt(l, n, stmt, s, st, depth, brk, cont, inLoop)
    requires StmtStarves(l.p, stmt, s, depth, fuel)
    ensures Runs(l.m, st, fuel)
    decreases fuel, stmt, 1
  {
    hide Step, Decode, Rel, ExprCells, StmtsCells, EvalExpr, ExecStmts, ExprLen, StmtsLen, WfExpr, WfStmts,
         CoversExpr, CoversStmts, HasCells, ValidLinked, StackNeed, ExprStarves, StmtsStarve, Runs;
    var c, b := stmt.cond, stmt.body;
    if ExprStarves(l.p, c, s, depth, fuel) {
      MarchPlain(l, n, stmt, s, st, depth, fuel, brk, cont, inLoop);
    } else {
      FrameRoomGivesRoom(l, n, st, depth, StmtDepth(stmt));
      var bbase := st.pc + ExprLen(c) + 5;
      var next := bbase + StmtsLen(b);
      Split4(l, st.pc, ExprCells(n, c), OpRef(JZ, At(next + 5)), StmtsCells(n, b, bbase, At(next + 5), At(next)),
             OpRef(JMP, At(st.pc)));
      CodeBound(l, next, OpRef(JMP, At(st.pc)));
      var r := EvalExpr(l.p, c, s, depth, fuel);
      var s1 := s.(out := r.out);
      var k1, st1 := SimCond(l, n, c, s, st, depth, fuel, next + 5);
      if StmtsStarve(l.p, b, s1, depth, fuel) {
        MarchStmts(l, n, b, s1, st1, depth, fuel, next + 5, next, true);
        RunsOn(l.m, st, k1, st1, fuel, fuel);
      } else if fuel == 0 {
        RunsNone(l.m, st);
      } else {
        var k2, st2 := SimRound(l, n, b, s1, st1, depth, fuel, st.pc, next + 5);
        StepsCompose(l.m, st, k1, st1, k2, st2);
        MarchWhile(l, n, stmt, ExecStmts(l.p, b, s1, depth, fuel).st, st2, depth, fuel - 1, brk, cont, inLoop);
        RunsOn(l.m, st, k1 + k2, st2, fuel - 1, fuel);
      }
    }
  }

  /** Back at the top of a loop, its code is ahead again. */
  lemma AgainAt(l: Linked, n: Names, stmt: Stmt, s: Store, st: State, s1: Store, st1: State, depth: nat, brk: nat,
                cont: nat, inLoop: bool)
    requires StmtAt(l, n, stmt, s, st, depth, brk, cont, inLoop) && Settled(n, st, s1, st.pc, st1)
    ensures StmtAt(l, n, stmt, s1, st1, depth, brk, cont, inLoop)
  {
    hide HasCells, StmtCells, Rel, WfStmt, CoversStmt, StmtDepth, StackNeed, ValidLinked;
  }

  lemma LoopParts(l: Linked, n: Names, stmt: Stmt, s: Store, st: State, depth: nat, brk: nat, cont: nat, inLoop: bool)
    requires stmt.Loop? && StmtAt(l, n, stmt, s, st, depth, brk, cont, inLoop)
    ensures var b := stmt.body;
            var next := st.pc + StmtsLen(b);
            && Env(l, n) && WfStmts(l.p, b, true) && CoversStmts(n, b) && next + 5 < 0x1_0000_0000
            && HasCells(l.m.code, st.pc, StmtsCells(n, b, st.pc, At(next + 5), At(next)), l.entries)
            && HasCells(l.m.code, next, OpRef(JMP, At(st.pc)), l.entries)
            && Rel(n, s, st) && FrameRoom(l, n, st, depth, StmtsDepth(b))
  {
    hide Rel, StmtsCells, StmtsLen, WfStmts, CoversStmts, HasCells, ValidLinked, StackNeed, StmtsDepth, OpRef;
    var b := stmt.body;
    var next := st.pc + StmtsLen(b);
    SplitCells(l.m.code, st.pc, StmtsCells(n, b, st.pc, At(next + 5), At(next)), OpRef(JMP, At(st.pc)), l.entries);
    CodeBound(l, next, OpRef(JMP, At(st.pc)));
  }

  lemma {:induction false} MarchLoop(l: Linked, n: Names, stmt: Stmt, s: Store, st: State, depth: nat, fuel: nat,
                                     brk: nat, cont: nat, inLoop: bool)
    requires stmt.Loop? && StmtAt(l, n, stmt, s, st, depth, brk, cont, inLoop)
    requires StmtStarves(l.p, stmt, s, depth, fuel)
    ensures Runs(l.m, st, fuel)
    decreases fuel, stmt, 1
  {
    hide Step, Decode, Rel, StmtsCells, ExecStmts, StmtsLen, WfStmts, CoversStmts, HasCells, StmtsStarve, Runs, StmtAt,
         Env, FrameRoom, Settled, Returning, OpRef;
    var b := stmt.body;
    var next := st.pc + StmtsLen(b);
    LoopParts(l, n, stmt, s, st, depth, brk, cont, inLoop);
    if StmtsStarve(l.p, b, s, depth, fuel) {
      MarchStmts(l, n, b, s, st, depth, fuel, next + 5, next, true);
    } else if fuel == 0 {
      RunsNone(l.m, st);
    } else {
      var k1, st1 := SimRound(l, n, b, s, st, depth, fuel, st.pc, next + 5);
      var s1 := ExecStmts(l.p, b, s, depth, fuel).st;
      AgainAt(l, n, stmt, s, st, s1, st1, depth, brk, cont, inLoop);
      MarchLoop(l, n, stmt, s1, st1, depth, fuel - 1, brk, cont, inLoop);
      RunsOn(l.m, st, k1, st1, fuel - 1, fuel);
    }
  }

  lemma {:induction false} MarchFor(l: Linked, n: Names, stmt: Stmt, s: Store, st: State, depth: nat, fuel: nat,
                                    brk: nat, cont: nat, inLoop: bool)
    requires stmt.For? && StmtAt(l, n, stmt, s, st, depth, brk, cont, inLoop) && StmtStarves(l.p, stmt, s, depth, fuel)
    ensures Runs(l.m, st, fuel)
    decreases fuel, stmt, 1
  {
    hide Step, Decode, ExprCells, ForCells, EvalExpr, ExprLen, ForLen, WfExpr, WfStmts, CoversExpr, CoversStmts,
         HasCells, ValidLinked, StackNeed, ExprStarves, ForStarves, Runs;
    if ExprStarves(l.p, stmt.start, s, depth, fuel) {
      MarchPlain(l, n, stmt, s, st, depth, fuel, brk, cont, inLoop);
    } else {
      FrameRoomGivesRoom(l, n, st, depth, StmtDepth(stmt));
      var top := st.pc + ExprLen(stmt.start) + 5;
      var c1, c2 := ExprCells(n, stmt.start), OpImm(STORELOCAL, IndexOf(n.locals, stmt.name));
      var c3 := ForCells(n, stmt.name, stmt.end, stmt.step, stmt.kind, stmt.body, top);
      SplitCells(l.m.code, st.pc, c1 + c2, c3, l.entries);
      SplitCells(l.m.code, st.pc, c1, c2, l.entries);
      var r := EvalExpr(l.p, stmt.start, s, depth, fuel);
      var k1, st1 := SimExpr(l, n, stmt.start, s, st, depth, fuel);
      var st2 := SimStore(l, n, stmt.name, r.v, s, st, st1);
      var k2 := Then(l.m, st, k1, st1, st2);
      MarchForLoop(l, n, stmt, Store(s.vars[stmt.name := r.v], r.out), st2, depth, fuel);
      RunsOn(l.m, st, k2, st2, fuel, fuel);
    }
  }

  /** An expression behind a load of the loop variable. */
  lemma {:induction false} MarchBehindLoad(l: Linked, n: Names, x: string, e: Expr, s: Store, st: State, depth: nat,
                                           fuel: nat)
    requires Env(l, n) && WfExpr(l.p, e) && CoversExpr(n, e) && x in s.vars
    requires HasCells(l.m.code, st.pc, OpImm(LOADLOCAL, IndexOf(n.locals, x)), l.entries)
    requires HasCells(l.m.code, st.pc + 5, ExprCells(n, e), l.entries)
    requires Rel(n, s, st) && Room(l, st, depth, 1 + ExprDepth(e)) && ExprStarves(l.p, e, s, depth, fuel)
    ensures Runs(l.m, st, fuel)
    decreases fuel, e, 2
  {
    hide Step, Decode, HasCells, ExprCells, WfExpr, CoversExpr, ValidLinked, StackNeed, ExprStarves, Runs;
    RoomInside(l, st, depth, 1 + ExprDepth(e));
    assert Holds(n, x, s.vars[x], st);
    var k1, st1 := SimLoad(l, n, x, s.vars[x], st);
    RelAbove(n, s, st, st1, st.out);
    MarchExpr(l, n, e, s, st1, depth, fuel);
    RunsOn(l.m, st, k1, st1, fuel, fuel);
  }

  lemma {:induction false} MarchForLoop(l: Linked, n: Names, stmt: Stmt, s: Store, st: State, depth: nat, fuel: nat)
    requires ForAt(l, n, stmt, s, st, depth) && ForStarves(l.p, stmt, s, depth, fuel)
    ensures Runs(l.m, st, fuel)
    decreases fuel, stmt, 0
  {
    hide Step, Decode, Rel, HasCells, EvalExpr, ExecStmts, ExprCells, ExprLen, StmtsLen, ForLen, ForHead, ForTail,
         ForCells, StmtsCells, WfExpr, WfStmts, CoversExpr, CoversStmts, ValidLinked, StackNeed, ExprStarves,
         StmtsStarve, Increment, Runs;
    var x, b := stmt.name, stmt.body;
    CodeSize(l);
    ForSplit(l, n, stmt, st.pc);
    var next := st.pc + ExprLen(stmt.end) + 11 + StmtsLen(b);
    var after := st.pc + ForLen(stmt.end, stmt.step, b);
    if ExprStarves(l.p, stmt.end, s, depth, fuel) {
      FrameRoomGivesRoom(l, n, st, depth, 1 + ExprDepth(stmt.end));
      HeadSplit(l, n, stmt, st.pc, after);
      MarchBehindLoad(l, n, x, stmt.end, s, st, depth, fuel);
    } else {
      var re := EvalExpr(l.p, stmt.end, s, depth, fuel);
      var s1 := s.(out := re.out);
      var k1, st1 := SimForHead(l, n, stmt, s, st, depth, fuel, after);
      if StmtsStarve(l.p, b, s1, depth, fuel) {
        MarchStmts(l, n, b, s1, st1, depth, fuel, after, next, true);
        RunsOn(l.m, st, k1, st1, fuel, fuel);
      } else if fuel == 0 {
        RunsNone(l.m, st);
      } else {
        var rb := ExecStmts(l.p, b, s1, depth, fuel);
        var k2, st2 := SimStmts(l, n, b, s1, st1, depth, fuel, after, next, true);
        var k := Chain(l, n, st, k1, st1, rb, next, after, next, k2, st2);
        MarchForNext(l, n, stmt, rb.st, st2, depth, fuel, st.pc);
        RunsOn(l.m, st, k, st2, fuel, fuel);
      }
    }
  }

  lemma HeadSplit(l: Linked, n: Names, stmt: Stmt, pc: nat, after: nat)
    requires stmt.For?
    requires HasCells(l.m.code, pc, ForHead(n, IndexOf(n.locals, stmt.name), stmt.end, stmt.kind, At(after)), l.entries)
    ensures HasCells(l.m.code, pc, OpImm(LOADLOCAL, IndexOf(n.locals, stmt.name)), l.entries)
    ensures HasCells(l.m.code, pc + 5, ExprCells(n, stmt.end), l.entries)
  {
    hide HasCells, ExprCells, ExprLen, IndexOf;
    var op := if stmt.kind.Exclusive? then CMPLT else CMPLE;
    Split4(l, pc, OpImm(LOADLOCAL, IndexOf(n.locals, stmt.name)), ExprCells(n, stmt.end), Op(op), OpRef(JZ, At(after)));
  }

  lemma TailSplit(l: Linked, n: Names, stmt: Stmt, pc: nat, top: nat)
    requires stmt.For? && stmt.step.Some?
    requires HasCells(l.m.code, pc, ForTail(n, IndexOf(n.locals, stmt.name), stmt.step, top), l.entries)
    ensures HasCells(l.m.code, pc, OpImm(LOADLOCAL, IndexOf(n.locals, stmt.name)), l.entries)
    ensures HasCells(l.m.code, pc + 5, ExprCells(n, stmt.step.value), l.entries)
  {
    hide HasCells, ExprCells, ExprLen, IndexOf;
    var i := IndexOf(n.locals, stmt.name);
    Split5(l, pc, OpImm(LOADLOCAL, i), ExprCells(n, stmt.step.value), Op(ADD), OpImm(STORELOCAL, i),
           OpRef(JMP, At(top)));
  }

  /** The increment after a round, and the rounds after it. */
  lemma {:induction false} MarchForNext(l: Linked, n: Names, stmt: Stmt, s: Store, st: State, depth: nat, fuel: nat,
                                        top: nat)
    requires stmt.For? && Env(l, n) && WfStmt(l.p, stmt, true) && CoversStmt(n, stmt) && fuel > 0
    requires st.pc == top + ExprLen(stmt.end) + 11 + StmtsLen(stmt.body) && top < 0x1_0000_0000
    requires HasCells(l.m.code, top, ForCells(n, stmt.name, stmt.end, stmt.step, stmt.kind, stmt.body, top), l.entries)
    requires Rel(n, s, st) && FrameRoom(l, n, st, depth, StmtDepth(stmt)) && stmt.name in s.vars
    requires (stmt.step.Some? && ExprStarves(l.p, stmt.step.value, s, depth, fuel))
             || var inc := Increment(l.p, stmt.step, s, depth, fuel);
                inc.Value? && ForStarves(l.p, stmt, Raised(stmt.name, s, inc),
                                         depth, fuel - 1)
    ensures Runs(l.m, st, fuel)
    decreases fuel, stmt.step, 4
  {
    hide Step, Decode, Rel, HasCells, EvalExpr, ExprCells, ExprLen, StmtsLen, ForLen, ForHead, ForTail, ForCells,
         StmtsCells, WfExpr, WfStmts, CoversExpr, CoversStmts, ValidLinked, StackNeed, ExprStarves, ForStarves, Runs;
    CodeSize(l);
    ForSplit(l, n, stmt, top);
    if stmt.step.Some? && ExprStarves(l.p, stmt.step.value, s, depth, fuel) {
      FrameRoomGivesRoom(l, n, st, depth, 1 + ExprDepth(stmt.step.value));
      TailSplit(l, n, stmt, st.pc, top);
      MarchBehindLoad(l, n, stmt.name, stmt.step.value, s, st, depth, fuel);
    } else {
      var inc := Increment(l.p, stmt.step, s, depth, fuel);
      var k1, st1 := SimForTail(l, n, stmt, s, st, depth, fuel, top);
      MarchForLoop(l, n, stmt, Raised(stmt.name, s, inc), st1, depth, fuel - 1);
      RunsOn(l.m, st, k1, st1, fuel - 1, fuel);
    }
  }

  lemma {:induction false} MarchMatch(l: Linked, n: Names, stmt: Stmt, s: Store, st: State, depth: nat, fuel: nat,
                                      brk: nat, cont: nat, inLoop: bool)
    requires stmt.Match? && StmtAt(l, n, stmt, s, st, depth, brk, cont, inLoop)
    requires StmtStarves(l.p, stmt, s, depth, fuel)
    ensures Runs(l.m, st, fuel)
    decreases fuel, stmt, 1
  {
    hide Step, Decode, StmtAt, StmtCells, StmtLen, EvalExpr, ArmCells, ArmLen, WfStmts, CoversStmts, StmtsDepth, Rel,
         ArmFor, FrameRoom, HasCells, ExprStarves, StmtsStarve, Runs;
    var e, arms := stmt.scrutinee, stmt.arms;
    if ExprStarves(l.p, e, s, depth, fuel) {
      MarchPlain(l, n, stmt, s, st, depth, fuel, brk, cont, inLoop);
    } else {
      var r := EvalExpr(l.p, e, s, depth, fuel);
      var k1, st1 := SimToArm(l, n, stmt, s, st, depth, fuel, brk, cont, inLoop);
      ArmReady(l, n, stmt, s, st, st1, depth, r.v, k1, brk, cont, inLoop);
      AtEnv(l, n, stmt, s, st, depth, brk, cont, inLoop);
      MarchArm(l, n, arms[ArmFor(arms, r.v)], s.(out := r.out), st, st1, r.v, depth, fuel, st.pc + StmtLen(stmt), brk,
               cont, inLoop);
      RunsOn(l.m, st, k1, st1, fuel, fuel);
    }
  }

  lemma AtEnv(l: Linked, n: Names, stmt: Stmt, s: Store, st: State, depth: nat, brk: nat, cont: nat, inLoop: bool)
    requires StmtAt(l, n, stmt, s, st, depth, brk, cont, inLoop)
    ensures Env(l, n) && brk < 0x1_0000_0000 && cont < 0x1_0000_0000
  {
  }

  lemma {:induction false} MarchArm(l: Linked, n: Names, a: Arm, s: Store, st0: State, st: State, v: i32,
                                    depth: nat, fuel: nat, end: nat, brk: nat, cont: nat, inLoop: bool)
    requires Env(l, n) && WfStmts(l.p, a.body, inLoop) && CoversStmts(n, a.body)
    requires HasCells(l.m.code, st.pc, ArmCells(n, a, st.pc, end, At(brk), At(cont)), l.entries)
    requires end < 0x1_0000_0000 && brk < 0x1_0000_0000 && cont < 0x1_0000_0000
    requires a.pat.LitPat? ==> a.pat.lit == v
    requires SameBelow(st0, st, st0.sp) && st.sp == st0.sp + 1 && st.sp + 2 <= |st.stack| && st.stack[st0.sp] == v
    requires Rel(n, s, st0.(out := st.out)) && FrameRoom(l, n, st0, depth, StmtsDepth(a.body))
    requires StmtsStarve(l.p, a.body, s, depth, fuel)
    ensures Runs(l.m, st, fuel)
    decreases fuel, a.body, 3
  {
    hide Step, Decode, StmtsCells, StmtsLen, WfStmts, CoversStmts, StmtsDepth, StmtsStarve, Runs, StackNeed;
    var k1, st1 := SimArmEnter(l, n, a, s, st0, st, v, depth, end, brk, cont);
    MarchStmts(l, n, a.body, s, st1, depth, fuel, brk, cont, inLoop);
    RunsOn(l.m, st, k1, st1, fuel, fuel);
  }

  // Whole programs.

  /** If the source goes on for ever, so does the machine. */
  lemma DivergenceKept(p: Program, cap: nat, depth: nat, budget: nat)
    requires WfProgram(p) && Fits(p, cap, depth)
    requires forall fuel: nat :: Starves(p, depth, fuel)
    ensures var im := ProgramImage(p);
            RunFrom(Machine(im.code, im.pool), InitState(cap, im.entry), budget).TimedOut?
  {
    hide Starves, RunFrom, ProgramImage, Fits, Runs;
    var im := ProgramImage(p);
    assert Starves(p, depth, budget + 1);
    StarvedRuns(p, cap, depth, budget + 1);
    RunsOut(Machine(im.code, im.pool), InitState(cap, im.entry), budget);
  }

  /**
   * The converse of compiler correctness. If the machine stops within a number of instructions, the
   * source has its final answer with one more unit of fuel than that: it printed exactly what the
   * machine did, or it is stuck and finishes with no amount of fuel.
   */
  lemma StopsOnlyWithSource(p: Program, cap: nat, depth: nat, budget: nat)
    requires WfProgram(p) && Fits(p, cap, depth)
    requires var im := ProgramImage(p);
             !RunFrom(Machine(im.code, im.pool), InitState(cap, im.entry), budget).TimedOut?
    ensures var im := ProgramImage(p);
            var r := RunFrom(Machine(im.code, im.pool), InitState(cap, im.entry), budget);
            var answer := RunMain(p, depth, budget + 1);
            && (forall fuel :: fuel > budget ==> RunMain(p, depth, fuel) == answer)
            && (answer.Some? ==> r.Finished? && r.st.out == answer.value)
  {
    hide Starves, RunFrom, ProgramImage, Fits, Runs, RunMain;
    var im := ProgramImage(p);
    var m, st := Machine(im.code, im.pool), InitState(cap, im.entry);
    if Starves(p, depth, budget + 1) {
      StarvedRuns(p, cap, depth, budget + 1);
      RunsOut(m, st, budget);
    }
    forall fuel | fuel > budget
      ensures RunMain(p, depth, fuel) == RunMain(p, depth, budget + 1)
    {
      StarvesOrFinal(p, depth, budget + 1, fuel);
    }
    if RunMain(p, depth, budget + 1).Some? {
      var steps := CompilerCorrect(p, cap, depth, budget + 1);
      var large := budget + steps + 1;
      assert RunFrom(m, st, large).Finished?;
      CutShort(m, st, budget, large);
    }
  }

  lemma {:induction false} RunsOut(m: Machine, st: State, budget: nat)
    requires Runs(m, st, budget + 1)
    ensures RunFrom(m, st, budget).TimedOut?
    decreases budget
  {
    hide Step;
    if st.pc >= |m.code| {
      StepAtEnd(m, st);
    } else if budget > 0 {
      RunsOut(m, Step(m, st).st, budget - 1);
    }
  }

  lemma StarvedRuns(p: Program, cap: nat, depth: nat, fuel: nat)
    requires WfProgram(p) && Fits(p, cap, depth) && Starves(p, depth, fuel)
    ensures var im := ProgramImage(p); Runs(Machine(im.code, im.pool), InitState(cap, im.entry), fuel)
  {
    hide Step, ProgramImage, FnStarves, Runs;
    var l := LinkedProgram(p);
    ProgramIsLinked(p);
    assert FnLinked(l, "main");
    EntryOfMain(p);
    MarchFn(l, "main", [], InitState(cap, ProgramImage(p).entry), depth, fuel);
  }
}
