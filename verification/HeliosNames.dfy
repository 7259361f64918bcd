/** How the emitter's tables grow, and why code emitted with an early table is right for the final one. */
module HeliosNames {
  import opened Bits
  import opened HeliosAst
  import opened Wrappers
  import opened HeliosCode
  import opened HeliosLink

  /** The later tables keep every slot and every string index of the earlier ones. */
  ghost predicate Extends(a: Names, b: Names) {
    a.locals <= b.locals && a.pool <= b.pool && a.consts == b.consts
  }

  lemma {:induction false} ExprGrows(n: Names, e: Expr)
    ensures Extends(n, ExprNames(n, e))
    decreases e, 0
  {
    match e
    case Un(_, a) => ExprGrows(n, a);
    case Bin(a, _, b) =>
      ExprGrows(n, a);
      ExprGrows(ExprNames(n, a), b);
    case Cast(a, _) => ExprGrows(n, a);
    case Call(_, args) => ArgsGrow(n, args);
    case _ =>
  }

  lemma {:induction false} ArgsGrow(n: Names, args: seq<Expr>)
    ensures Extends(n, ArgsNames(n, args))
    decreases args, 0
  {
    if args != [] {
      ArgsGrow(n, args[..|args| - 1]);
      ExprGrows(ArgsNames(n, args[..|args| - 1]), args[|args| - 1]);
    }
  }

  lemma {:induction false} StmtGrows(n: Names, s: Stmt)
    ensures Extends(n, StmtNames(n, s))
    decreases s, 0
  {
    match s
    case Let(_, e) => ExprGrows(n, e);
    case Assign(_, e) => ExprGrows(n, e);
    case CompoundAssign(x, _, e) => ExprGrows(AddLocal(n, x), e);
    case If(c, t, e) =>
      ExprGrows(n, c);
      StmtsGrow(ExprNames(n, c), t);
      StmtsGrow(StmtsNames(ExprNames(n, c), t), e);
    case While(c, b) =>
      ExprGrows(n, c);
      StmtsGrow(ExprNames(n, c), b);
    case Loop(b) => StmtsGrow(n, b);
    case For(x, start, end, step, _, b) =>
      var n1 := AddLocal(ExprNames(n, start), x);
      ExprGrows(n, start);
      ExprGrows(n1, end);
      StmtsGrow(ExprNames(n1, end), b);
      if step.Some? {
        ExprGrows(StmtsNames(ExprNames(n1, end), b), step.value);
      }
    case Match(e, arms) =>
      ExprGrows(n, e);
      ArmsGrow(ExprNames(n, e), arms);
    case Return(e) => ExprGrows(n, e);
    case Print(e) => ExprGrows(n, e);
    case ExprStmt(e) => ExprGrows(n, e);
    case _ =>
  }

  lemma {:induction false} StmtsGrow(n: Names, ss: seq<Stmt>)
    ensures Extends(n, StmtsNames(n, ss))
    decreases ss, 0
  {
    if ss != [] {
      StmtsGrow(n, ss[..|ss| - 1]);
      StmtGrows(StmtsNames(n, ss[..|ss| - 1]), ss[|ss| - 1]);
    }
  }

  lemma {:induction false} ArmsGrow(n: Names, arms: seq<Arm>)
    ensures Extends(n, ArmsNames(n, arms))
    decreases arms, 0
  {
    if arms != [] {
      ArmsGrow(n, arms[..|arms| - 1]);
      StmtsGrow(ArmsNames(n, arms[..|arms| - 1]), arms[|arms| - 1].body);
    }
  }

  /** What a table covers, every later table covers, with the same code. */
  lemma {:induction false} ExprStable(a: Names, b: Names, e: Expr)
    requires Extends(a, b) && CoversExpr(a, e)
    ensures CoversExpr(b, e) && ExprCells(a, e) == ExprCells(b, e)
    decreases e, 0
  {
    match e
    case StrLit(s) => IndexStable(a.pool, b.pool, s + [0]);
    case Var(x) => if FindConst(a.consts, x).None? { IndexStable(a.locals, b.locals, x); }
    case Un(_, x) => ExprStable(a, b, x);
    case Bin(x, _, y) =>
      ExprStable(a, b, x);
      ExprStable(a, b, y);
    case Cast(x, _) => ExprStable(a, b, x);
    case Call(_, args) => ArgsStable(a, b, args);
    case _ =>
  }

  lemma IndexStable<T>(s: seq<T>, t: seq<T>, x: T)
    requires s <= t && x in s
    ensures x in t && IndexOf(s, x) == IndexOf(t, x)
  {
    var i, j := IndexOf(s, x), IndexOf(t, x);
    assert t[i] == s[i];
    assert forall k :: 0 <= k < i ==> s[k] == t[k];
    assert j == i;
  }

  lemma {:induction false} ArgsStable(a: Names, b: Names, args: seq<Expr>)
    requires Extends(a, b) && CoversArgs(a, args)
    ensures CoversArgs(b, args) && ArgsCells(a, args) == ArgsCells(b, args)
    decreases args, 0
  {
    if args != [] {
      ArgsStable(a, b, args[..|args| - 1]);
      ExprStable(a, b, args[|args| - 1]);
    }
  }

  lemma {:induction false} StmtStable(a: Names, b: Names, s: Stmt, base: nat, brk: Target, cont: Target)
    requires Extends(a, b) && CoversStmt(a, s)
    ensures CoversStmt(b, s) && StmtCells(a, s, base, brk, cont) == StmtCells(b, s, base, brk, cont)
    decreases s, 0
  {
    hide ExprCells, StmtsCells, ArmsCells, CoversExpr, CoversStmts, CoversArms, IndexOf, ExprLen, StmtLen, Op, OpImm,
         OpRef, ForHead, ForTail;
    match s
    case Let(x, e) =>
      ExprStable(a, b, e);
      IndexStable(a.locals, b.locals, x);
    case Assign(x, e) =>
      ExprStable(a, b, e);
      IndexStable(a.locals, b.locals, x);
    case CompoundAssign(x, _, e) =>
      ExprStable(a, b, e);
      IndexStable(a.locals, b.locals, x);
    case If(c, t, e) =>
      var tbase := base + ExprLen(c) + 5;
      ExprStable(a, b, c);
      StmtsStable(a, b, t, tbase, brk, cont);
      StmtsStable(a, b, e, tbase + StmtsLen(t) + 5, brk, cont);
    case While(c, body) =>
      var bbase := base + ExprLen(c) + 5;
      var next := bbase + StmtsLen(body);
      ExprStable(a, b, c);
      StmtsStable(a, b, body, bbase, At(next + 5), At(next));
    case Loop(body) =>
      var next := base + StmtsLen(body);
      StmtsStable(a, b, body, base, At(next + 5), At(next));
    case For(_, start, _, _, _, _) => ForStable(a, b, s, base, brk, cont);
    case Match(e, arms) =>
      var abase := base + ExprLen(e);
      ExprStable(a, b, e);
      ArmsStable(a, b, arms, abase, abase + ArmsLen(arms) + ArmsTailLen(arms), brk, cont);
    case Return(e) => ExprStable(a, b, e);
    case Print(e) => ExprStable(a, b, e);
    case ExprStmt(e) => ExprStable(a, b, e);
    case _ =>
  }

  lemma {:induction false} ForStable(a: Names, b: Names, s: Stmt, base: nat, brk: Target, cont: Target)
    requires s.For? && Extends(a, b) && CoversStmt(a, s)
    ensures CoversStmt(b, s) && StmtCells(a, s, base, brk, cont) == StmtCells(b, s, base, brk, cont)
    decreases s.body, 1
  {
    hide ExprCells, StmtsCells, CoversExpr, CoversStmts, IndexOf, ExprLen, StmtsLen, StmtLen, Op, OpImm, OpRef;
    var top := base + ExprLen(s.start) + 5;
    var bbase := top + ExprLen(s.end) + 11;
    ExprStable(a, b, s.start);
    ExprStable(a, b, s.end);
    IndexStable(a.locals, b.locals, s.name);
    StmtsStable(a, b, s.body, bbase, At(top + ForLen(s.end, s.step, s.body)), At(bbase + StmtsLen(s.body)));
    if s.step.Some? {
      ExprStable(a, b, s.step.value);
    }
  }

  lemma {:induction false} StmtsStable(a: Names, b: Names, ss: seq<Stmt>, base: nat, brk: Target, cont: Target)
    requires Extends(a, b) && CoversStmts(a, ss)
    ensures CoversStmts(b, ss) && StmtsCells(a, ss, base, brk, cont) == StmtsCells(b, ss, base, brk, cont)
    decreases ss, 0
  {
    hide StmtCells, CoversStmt, StmtLen;
    if ss != [] {
      var k := |ss| - 1;
      StmtsStable(a, b, ss[..k], base, brk, cont);
      StmtStable(a, b, ss[k], base + StmtsLen(ss[..k]), brk, cont);
    }
  }

  lemma {:induction false} ArmsStable(a: Names, b: Names, arms: seq<Arm>, base: nat, end: nat, brk: Target,
                                      cont: Target)
    requires Extends(a, b) && CoversArms(a, arms)
    ensures CoversArms(b, arms) && ArmsCells(a, arms, base, end, brk, cont) == ArmsCells(b, arms, base, end, brk, cont)
    decreases arms, 0
  {
    if arms != [] {
      var k := |arms| - 1;
      var at := base + ArmsLen(arms[..k]);
      ArmsStable(a, b, arms[..k], base, end, brk, cont);
      StmtsStable(a, b, arms[k].body, at + (if arms[k].pat.Wildcard? then 1 else 13), brk, cont);
    }
  }

  /** After emission the tables cover what was emitted. */
  lemma {:induction false} ExprCovered(n: Names, e: Expr)
    ensures CoversExpr(ExprNames(n, e), e)
    decreases e, 0
  {
    match e
    case Un(_, a) => ExprCovered(n, a);
    case Bin(a, _, b) =>
      ExprCovered(n, a);
      ExprGrows(ExprNames(n, a), b);
      ExprStable(ExprNames(n, a), ExprNames(n, e), a);
      ExprCovered(ExprNames(n, a), b);
    case Cast(a, _) => ExprCovered(n, a);
    case Call(_, args) => ArgsCovered(n, args);
    case _ =>
  }

  lemma {:induction false} ArgsCovered(n: Names, args: seq<Expr>)
    ensures CoversArgs(ArgsNames(n, args), args)
    decreases args, 0
  {
    if args != [] {
      var k := |args| - 1;
      var n1 := ArgsNames(n, args[..k]);
      ArgsCovered(n, args[..k]);
      ExprGrows(n1, args[k]);
      ArgsStable(n1, ArgsNames(n, args), args[..k]);
      ExprCovered(n1, args[k]);
    }
  }

  lemma {:induction false} StmtCovered(n: Names, s: Stmt)
    ensures CoversStmt(StmtNames(n, s), s)
    decreases s, 0
  {
    var n' := StmtNames(n, s);
    match s
    case Let(x, e) =>
      ExprCovered(n, e);
      ExprStable(ExprNames(n, e), n', e);
    case Assign(x, e) =>
      ExprCovered(n, e);
      ExprStable(ExprNames(n, e), n', e);
    case CompoundAssign(x, _, e) =>
      ExprCovered(AddLocal(n, x), e);
      ExprGrows(AddLocal(n, x), e);
    case If(c, t, e) =>
      var n1 := ExprNames(n, c);
      var n2 := StmtsNames(n1, t);
      ExprCovered(n, c);
      StmtsGrow(n1, t);
      StmtsGrow(n2, e);
      ExprStable(n1, n', c);
      StmtsCovered(n1, t);
      StmtsStable(n2, n', t, 0, At(0), At(0));
      StmtsCovered(n2, e);
    case While(c, b) =>
      var n1 := ExprNames(n, c);
      ExprCovered(n, c);
      StmtsGrow(n1, b);
      ExprStable(n1, n', c);
      StmtsCovered(n1, b);
    case Loop(b) => StmtsCovered(n, b);
    case For(x, start, end, step, _, b) =>
      var n0 := ExprNames(n, start);
      var n1 := AddLocal(n0, x);
      var n2 := ExprNames(n1, end);
      var n3 := StmtsNames(n2, b);
      ExprCovered(n, start);
      ExprGrows(n1, end);
      StmtsGrow(n2, b);
      if step.Some? {
        ExprGrows(n3, step.value);
        ExprCovered(n3, step.value);
      }
      ExprStable(n0, n', start);
      ExprCovered(n1, end);
      ExprStable(n2, n', end);
      StmtsCovered(n2, b);
      StmtsStable(n3, n', b, 0, At(0), At(0));
    case Match(e, arms) =>
      var n1 := ExprNames(n, e);
      ExprCovered(n, e);
      ArmsGrow(n1, arms);
      ExprStable(n1, n', e);
      ArmsCovered(n1, arms);
    case Return(e) => ExprCovered(n, e);
    case Print(e) => ExprCovered(n, e);
    case ExprStmt(e) => ExprCovered(n, e);
    case _ =>
  }

  lemma {:induction false} StmtsCovered(n: Names, ss: seq<Stmt>)
    ensures CoversStmts(StmtsNames(n, ss), ss)
    decreases ss, 0
  {
    if ss != [] {
      var k := |ss| - 1;
      var n1 := StmtsNames(n, ss[..k]);
      StmtsCovered(n, ss[..k]);
      StmtGrows(n1, ss[k]);
      StmtsStable(n1, StmtsNames(n, ss), ss[..k], 0, At(0), At(0));
      StmtCovered(n1, ss[k]);
    }
  }

  lemma {:induction false} ArmsCovered(n: Names, arms: seq<Arm>)
    ensures CoversArms(ArmsNames(n, arms), arms)
    decreases arms, 0
  {
    if arms != [] {
      var k := |arms| - 1;
      var n1 := ArmsNames(n, arms[..k]);
      ArmsCovered(n, arms[..k]);
      StmtsGrow(n1, arms[k].body);
      ArmsStable(n1, ArmsNames(n, arms), arms[..k], 0, 0, At(0), At(0));
      StmtsCovered(n1, arms[k].body);
    }
  }

  /** The slots do not depend on the string pool. */
  ghost predicate SameLocals(a: Names, b: Names) {
    a.locals == b.locals && a.consts == b.consts
  }

  lemma {:induction false} ExprLocals(a: Names, b: Names, e: Expr)
    requires SameLocals(a, b)
    ensures SameLocals(ExprNames(a, e), ExprNames(b, e))
    decreases e, 0
  {
    match e
    case Un(_, x) => ExprLocals(a, b, x);
    case Bin(x, _, y) =>
      ExprLocals(a, b, x);
      ExprLocals(ExprNames(a, x), ExprNames(b, x), y);
    case Cast(x, _) => ExprLocals(a, b, x);
    case Call(_, args) => ArgsLocals(a, b, args);
    case _ =>
  }

  lemma {:induction false} ArgsLocals(a: Names, b: Names, args: seq<Expr>)
    requires SameLocals(a, b)
    ensures SameLocals(ArgsNames(a, args), ArgsNames(b, args))
    decreases args, 0
  {
    if args != [] {
      var k := |args| - 1;
      ArgsLocals(a, b, args[..k]);
      ExprLocals(ArgsNames(a, args[..k]), ArgsNames(b, args[..k]), args[k]);
    }
  }

  lemma {:induction false} StmtLocals(a: Names, b: Names, s: Stmt)
    requires SameLocals(a, b)
    ensures SameLocals(StmtNames(a, s), StmtNames(b, s))
    decreases s, 0
  {
    match s
    case Let(_, e) => ExprLocals(a, b, e);
    case Assign(_, e) => ExprLocals(a, b, e);
    case CompoundAssign(x, _, e) => ExprLocals(AddLocal(a, x), AddLocal(b, x), e);
    case If(c, t, e) =>
      var a1, b1 := ExprNames(a, c), ExprNames(b, c);
      ExprLocals(a, b, c);
      StmtsLocals(a1, b1, t);
      StmtsLocals(StmtsNames(a1, t), StmtsNames(b1, t), e);
    case While(c, body) =>
      ExprLocals(a, b, c);
      StmtsLocals(ExprNames(a, c), ExprNames(b, c), body);
    case Loop(body) => StmtsLocals(a, b, body);
    case For(x, start, end, step, _, body) =>
      var a1, b1 := AddLocal(ExprNames(a, start), x), AddLocal(ExprNames(b, start), x);
      var a2, b2 := ExprNames(a1, end), ExprNames(b1, end);
      ExprLocals(a, b, start);
      ExprLocals(a1, b1, end);
      StmtsLocals(a2, b2, body);
      if step.Some? {
        ExprLocals(StmtsNames(a2, body), StmtsNames(b2, body), step.value);
      }
    case Match(e, arms) =>
      ExprLocals(a, b, e);
      ArmsLocals(ExprNames(a, e), ExprNames(b, e), arms);
    case Return(e) => ExprLocals(a, b, e);
    case Print(e) => ExprLocals(a, b, e);
    case ExprStmt(e) => ExprLocals(a, b, e);
    case _ =>
  }

  lemma {:induction false} StmtsLocals(a: Names, b: Names, ss: seq<Stmt>)
    requires SameLocals(a, b)
    ensures SameLocals(StmtsNames(a, ss), StmtsNames(b, ss))
    decreases ss, 0
  {
    if ss != [] {
      var k := |ss| - 1;
      StmtsLocals(a, b, ss[..k]);
      StmtLocals(StmtsNames(a, ss[..k]), StmtsNames(b, ss[..k]), ss[k]);
    }
  }

  lemma {:induction false} ArmsLocals(a: Names, b: Names, arms: seq<Arm>)
    requires SameLocals(a, b)
    ensures SameLocals(ArmsNames(a, arms), ArmsNames(b, arms))
    decreases arms, 0
  {
    if arms != [] {
      var k := |arms| - 1;
      ArmsLocals(a, b, arms[..k]);
      StmtsLocals(ArmsNames(a, arms[..k]), ArmsNames(b, arms[..k]), arms[k].body);
    }
  }

  lemma {:induction false} ParamsFirst(n: Names, params: seq<string>)
    requires n.locals == [] && Distinct(params)
    ensures AddLocals(n, params) == n.(locals := params)
  {
    if params != [] {
      var k := |params| - 1;
      ParamsFirst(n, params[..k]);
      assert params == params[..k] + [params[k]];
      assert params[k] !in params[..k];
    }
  }

  lemma {:induction false} ParamsGrow(n: Names, params: seq<string>)
    ensures Extends(n, AddLocals(n, params))
  {
    if params != [] {
      ParamsGrow(n, params[..|params| - 1]);
    }
  }

  lemma {:induction false} ParamsLocals(a: Names, b: Names, params: seq<string>)
    requires SameLocals(a, b)
    ensures SameLocals(AddLocals(a, params), AddLocals(b, params))
  {
    if params != [] {
      ParamsLocals(a, b, params[..|params| - 1]);
    }
  }

  lemma FnLocals(pool: seq<seq<u8>>, consts: seq<(string, i32)>, f: FnDef)
    ensures FnNames(pool, consts, f).locals == SlotsOf(consts, f)
    ensures FnNames(pool, consts, f).consts == consts
    ensures pool <= FnNames(pool, consts, f).pool
  {
    var a, b := Names([], pool, consts), Names([], [], consts);
    ParamsLocals(a, b, f.params);
    StmtsLocals(AddLocals(a, f.params), AddLocals(b, f.params), f.body);
    ParamsGrow(a, f.params);
    StmtsGrow(AddLocals(a, f.params), f.body);
  }
}
