/** Laws of Helios programs: loops and assignments in terms of one another, and what programs print. */
module HeliosLaws {
  import opened Bits
  import opened Wrappers
  import opened HeliosAst
  import opened HeliosSemantics
  import V = HeliosValues

  /** A variable that no top-level constant hides. */
  predicate Readable(p: Program, x: string) {
    FindConst(p.consts, x).None?
  }

  /** `x op= e` means `x = x op e` for the eight operators that have a compound form, and any other operator adds. */
  lemma CompoundIsAssign(p: Program, x: string, op: BinOp, e: Expr, s: Store, depth: nat, fuel: nat)
    requires Readable(p, x) && x in s.vars
    ensures var applied := if op in {Add, Sub, Mul, Div, Mod, BAnd, BOr, BXor} then op else Add;
            ExecStmt(p, CompoundAssign(x, op, e), s, depth, fuel) ==
            ExecStmt(p, Assign(x, Bin(Var(x), applied, e)), s, depth, fuel)
  {
    hide BinVal;
    var applied := if op in {Add, Sub, Mul, Div, Mod, BAnd, BOr, BXor} then op else Add;
    assert EvalExpr(p, Var(x), s, depth, fuel) == Value(s.vars[x], s.out);
    assert s.(out := s.out) == s;
    assert CompoundOp(op) == applied;
  }

  // `for` as `while`.

  /** Whether a statement can continue the loop around it. */
  predicate Continues(s: Stmt)
    decreases s, 0
  {
    match s
    case If(_, t, e) => AnyContinues(t) || AnyContinues(e)
    case Match(_, arms) => exists i :: 0 <= i < |arms| && AnyContinues(arms[i].body)
    case Continue => true
    case _ => false
  }

  predicate AnyContinues(ss: seq<Stmt>)
    decreases ss
  {
    exists i :: 0 <= i < |ss| && Continues(ss[i])
  }

  lemma {:induction false} NeverContinues(p: Program, stmt: Stmt, s: Store, depth: nat, fuel: nat)
    requires !Continues(stmt)
    ensures var r := ExecStmt(p, stmt, s, depth, fuel); r.End? ==> !r.flow.Continued?
    decreases fuel, stmt, 1
  {
    match stmt
    case If(c, t, e) =>
      var r := EvalExpr(p, c, s, depth, fuel);
      if r.Value? {
        NoneContinues(p, t, s.(out := r.out), depth, fuel);
        NoneContinues(p, e, s.(out := r.out), depth, fuel);
      }
    case Match(e, arms) =>
      var r := EvalExpr(p, e, s, depth, fuel);
      if r.Value? {
        var k := ArmFor(arms, r.v);
        if k < |arms| {
          NoneContinues(p, arms[k].body, s.(out := r.out), depth, fuel);
        }
      }
    case While(c, b) => LoopsStop(p, stmt, s, depth, fuel);
    case Loop(b) => LoopsStop(p, stmt, s, depth, fuel);
    case For(x, start, _, _, _, _) =>
      var r := EvalExpr(p, start, s, depth, fuel);
      if r.Value? {
        RoundsStop(p, stmt, Store(s.vars[x := r.v], r.out), depth, fuel);
      }
    case _ =>
  }

  lemma {:induction false} NoneContinues(p: Program, ss: seq<Stmt>, s: Store, depth: nat, fuel: nat)
    requires !AnyContinues(ss)
    ensures var r := ExecStmts(p, ss, s, depth, fuel); r.End? ==> !r.flow.Continued?
    decreases fuel, ss, 1
  {
    if ss != [] {
      var k := |ss| - 1;
      NoneContinues(p, ss[..k], s, depth, fuel);
      var r := ExecStmts(p, ss[..k], s, depth, fuel);
      if r.End? && r.flow.Next? {
        NeverContinues(p, ss[k], r.st, depth, fuel);
      }
    }
  }

  /** A loop ends normally or by a return. */
  lemma {:induction false} LoopsStop(p: Program, stmt: Stmt, s: Store, depth: nat, fuel: nat)
    requires stmt.While? || stmt.Loop?
    ensures var r := ExecStmt(p, stmt, s, depth, fuel); r.End? ==> r.flow.Next? || r.flow.Returned?
    decreases fuel, stmt, 0
  {
    hide BinVal;
    var s1 := s;
    if stmt.While? {
      var r := EvalExpr(p, stmt.cond, s, depth, fuel);
      if r.NoValue? || r.v == 0 {
        return;
      }
      s1 := s.(out := r.out);
    }
    var rb := ExecStmts(p, stmt.body, s1, depth, fuel);
    if rb.End? && !rb.flow.Returned? && !rb.flow.Broke? && fuel > 0 {
      LoopsStop(p, stmt, rb.st, depth, fuel - 1);
    }
  }

  lemma {:induction false} RoundsStop(p: Program, stmt: Stmt, s: Store, depth: nat, fuel: nat)
    requires stmt.For?
    ensures var r := ExecFor(p, stmt, s, depth, fuel); r.End? ==> r.flow.Next? || r.flow.Returned?
    decreases fuel, stmt, 0
  {
    if stmt.name in s.vars && fuel > 0 {
      var re := EvalExpr(p, stmt.end, s, depth, fuel);
      if re.Value? {
        var rb := ExecStmts(p, stmt.body, s.(out := re.out), depth, fuel);
        if rb.End? && stmt.name in rb.st.vars {
          var inc := if stmt.step.None? then Value(1, rb.st.out)
                     else EvalExpr(p, stmt.step.value, rb.st, depth, fuel);
          if inc.Value? {
            RoundsStop(p, stmt, Store(rb.st.vars[stmt.name := Wrap32(rb.st.vars[stmt.name] + inc.v)], inc.out),
                       depth, fuel - 1);
          }
        }
      }
    }
  }

  /** The loop a `for` stands for, once its variable holds the start. */
  function Rounds(stmt: Stmt): Stmt
    requires stmt.For?
  {
    var x := stmt.name;
    While(Bin(Var(x), if stmt.kind.Exclusive? then BinOp.Lt else Le, stmt.end),
          stmt.body + [CompoundAssign(x, Add, if stmt.step.None? then IntLit(1) else stmt.step.value)])
  }

  /** `for x in start..end step k { body }` is `x = start; while x < end { body; x += k }`, with `<=` for `..=`, as
      long as nothing in the body continues the loop: then the increment would be skipped. */
  lemma ForIsWhile(p: Program, stmt: Stmt, s: Store, depth: nat, fuel: nat)
    requires stmt.For? && Readable(p, stmt.name) && !AnyContinues(stmt.body)
    ensures ExecStmt(p, stmt, s, depth, fuel) ==
            ExecStmts(p, [Assign(stmt.name, stmt.start), Rounds(stmt)], s, depth, fuel)
  {
    hide BinVal;
    var both := [Assign(stmt.name, stmt.start), Rounds(stmt)];
    assert both[..1] == [Assign(stmt.name, stmt.start)] && both[..1][..0] == [];
    assert ExecStmts(p, both[..1], s, depth, fuel) == ExecStmt(p, both[0], s, depth, fuel) by {
      assert ExecStmts(p, [], s, depth, fuel) == End(Next, s);
    }
    var r := EvalExpr(p, stmt.start, s, depth, fuel);
    if r.Value? {
      ForRounds(p, stmt, Store(s.vars[stmt.name := r.v], r.out), depth, fuel);
    }
  }

  lemma {:induction false} ForRounds(p: Program, stmt: Stmt, s: Store, depth: nat, fuel: nat)
    requires stmt.For? && Readable(p, stmt.name) && !AnyContinues(stmt.body) && stmt.name in s.vars
    ensures ExecFor(p, stmt, s, depth, fuel) == ExecStmt(p, Rounds(stmt), s, depth, fuel)
    decreases fuel
  {
    hide BinVal, ExecStmts, Wrap32;
    var x, w := stmt.name, Rounds(stmt);
    var re := EvalExpr(p, stmt.end, s, depth, fuel);
    RoundTest(p, stmt, s, depth, fuel);
    if re.Value? {
      var s1 := s.(out := re.out);
      NoneContinues(p, stmt.body, s1, depth, fuel);
      var rb := ExecStmts(p, stmt.body, s1, depth, fuel);
      BodyThenStep(p, stmt, s1, depth, fuel);
      if rb.End? && rb.flow.Next? && x in rb.st.vars && fuel > 0 {
        var inc := if stmt.step.None? then Value(1, rb.st.out)
                   else EvalExpr(p, stmt.step.value, rb.st, depth, fuel);
        if inc.Value? {
          ForRounds(p, stmt, Store(rb.st.vars[x := Wrap32(rb.st.vars[x] + inc.v)], inc.out), depth, fuel - 1);
        }
      }
    }
  }

  lemma RoundTest(p: Program, stmt: Stmt, s: Store, depth: nat, fuel: nat)
    requires stmt.For? && Readable(p, stmt.name) && stmt.name in s.vars
    ensures var re := EvalExpr(p, stmt.end, s, depth, fuel);
            var i := s.vars[stmt.name];
            EvalExpr(p, Rounds(stmt).cond, s, depth, fuel) ==
            if re.NoValue? then NoValue
            else Value(OfBool(if stmt.kind.Exclusive? then i < re.v else i <= re.v), re.out)
  {
    assert s.(out := s.out) == s;
    assert EvalExpr(p, Var(stmt.name), s, depth, fuel) == Value(s.vars[stmt.name], s.out);
  }

  lemma BodyThenStep(p: Program, stmt: Stmt, s: Store, depth: nat, fuel: nat)
    requires stmt.For? && Readable(p, stmt.name)
    ensures var rb := ExecStmts(p, stmt.body, s, depth, fuel);
            ExecStmts(p, Rounds(stmt).body, s, depth, fuel) ==
            if rb.NoEnd? || !rb.flow.Next? then rb
            else if stmt.name !in rb.st.vars then NoEnd
            else
              var inc := if stmt.step.None? then Value(1, rb.st.out)
                         else EvalExpr(p, stmt.step.value, rb.st, depth, fuel);
              if inc.NoValue? then NoEnd
              else End(Next, Store(rb.st.vars[stmt.name := Wrap32(rb.st.vars[stmt.name] + inc.v)], inc.out))
  {
    hide Wrap32, ExecStmts;
    LastStmt(p, stmt.body, CompoundAssign(stmt.name, Add, if stmt.step.None? then IntLit(1) else stmt.step.value), s,
             depth, fuel);
  }

  lemma LastStmt(p: Program, ss: seq<Stmt>, last: Stmt, s: Store, depth: nat, fuel: nat)
    ensures var r := ExecStmts(p, ss, s, depth, fuel);
            ExecStmts(p, ss + [last], s, depth, fuel) ==
            if r.NoEnd? || !r.flow.Next? then r else ExecStmt(p, last, r.st, depth, fuel)
  {
    hide ExecStmt;
    assert (ss + [last])[..|ss|] == ss;
  }

  // `while` as `loop`, `match` as `if`.

  /** `while c { body }` is `loop { if !c { break } body }`. */
  lemma {:induction false} WhileIsLoop(p: Program, c: Expr, body: seq<Stmt>, s: Store, depth: nat, fuel: nat)
    ensures ExecStmt(p, While(c, body), s, depth, fuel) ==
            ExecStmt(p, Loop([If(Un(Not, c), [Break], [])] + body), s, depth, fuel)
    decreases fuel
  {
    hide ExecStmts;
    var test := If(Un(Not, c), [Break], []);
    FirstStmt(p, test, body, s, depth, fuel);
    TestBreaks(p, c, s, depth, fuel);
    var r := EvalExpr(p, c, s, depth, fuel);
    if r.Value? && r.v != 0 {
      var rb := ExecStmts(p, body, s.(out := r.out), depth, fuel);
      if rb.End? && !rb.flow.Returned? && !rb.flow.Broke? && fuel > 0 {
        WhileIsLoop(p, c, body, rb.st, depth, fuel - 1);
      }
    }
  }

  lemma TestBreaks(p: Program, c: Expr, s: Store, depth: nat, fuel: nat)
    ensures var r := EvalExpr(p, c, s, depth, fuel);
            ExecStmt(p, If(Un(Not, c), [Break], []), s, depth, fuel) ==
            if r.NoValue? then NoEnd else End(if r.v == 0 then Broke else Next, s.(out := r.out))
  {
    var r := EvalExpr(p, c, s, depth, fuel);
    if r.Value? {
      OneStmt(p, Break, s.(out := r.out), depth, fuel);
    }
  }

  lemma {:induction false} FirstStmt(p: Program, first: Stmt, ss: seq<Stmt>, s: Store, depth: nat, fuel: nat)
    ensures var r := ExecStmt(p, first, s, depth, fuel);
            ExecStmts(p, [first] + ss, s, depth, fuel) ==
            if r.NoEnd? || !r.flow.Next? then r else ExecStmts(p, ss, r.st, depth, fuel)
    decreases |ss|
  {
    hide ExecStmt;
    if ss == [] {
      OneStmt(p, first, s, depth, fuel);
      assert [first] + ss == [first];
    } else {
      var k := |ss| - 1;
      FirstStmt(p, first, ss[..k], s, depth, fuel);
      assert ([first] + ss)[..k + 1] == [first] + ss[..k];
    }
  }

  /** `match x { k => body, arms }` is `if x == k { body } else { match x { arms } }`, and a match without a fitting
      arm does nothing. */
  lemma MatchIsIf(p: Program, x: string, arms: seq<Arm>, s: Store, depth: nat, fuel: nat)
    requires Readable(p, x) && x in s.vars
    ensures arms == [] ==> ExecStmt(p, Match(Var(x), arms), s, depth, fuel) == End(Next, s)
    ensures arms != [] && arms[0].pat.LitPat? ==>
              ExecStmt(p, Match(Var(x), arms), s, depth, fuel) ==
              ExecStmt(p, If(Bin(Var(x), Eq, IntLit(arms[0].pat.lit)), arms[0].body, [Match(Var(x), arms[1..])]), s,
                       depth, fuel)
    ensures arms != [] && arms[0].pat.Wildcard? ==>
              ExecStmt(p, Match(Var(x), arms), s, depth, fuel) == ExecStmts(p, arms[0].body, s, depth, fuel)
  {
    assert s.(out := s.out) == s;
    assert EvalExpr(p, Var(x), s, depth, fuel) == Value(s.vars[x], s.out);
    if arms != [] && arms[0].pat.LitPat? {
      var e := IntLit(arms[0].pat.lit);
      assert EvalExpr(p, Bin(Var(x), Eq, e), s, depth, fuel) == Value(OfBool(s.vars[x] == arms[0].pat.lit), s.out);
      OneStmt(p, Match(Var(x), arms[1..]), s, depth, fuel);
    }
  }

  // Numbers as text.

  /** A number written in base ten, most significant digit first. */
  function InBaseTen(digits: seq<u8>): int {
    if digits == [] then 0
    else
      var k := |digits| - 1;
      InBaseTen(digits[..k]) * 10 + (digits[k] - '0' as int)
  }

  predicate IsDigit(c: u8) {
    '0' as int <= c <= '9' as int
  }

  lemma {:induction false} DigitsInBaseTen(n: i32)
    requires n > 0
    ensures var t := Digits(n);
            t != [] && t[0] != '0' as int && (forall i :: 0 <= i < |t| ==> IsDigit(t[i])) && InBaseTen(t) == n
    decreases n
  {
    var t, u := Digits(n), Digits(n / 10);
    assert t == u + [48 + n % 10];
    assert t[..|t| - 1] == u;
    if n / 10 > 0 {
      DigitsInBaseTen(n / 10);
    }
  }

  /** Every number but i32::MIN is printed in decimal, without leading zeros and with a minus sign if it is
      negative. */
  lemma PrintedInDecimal(n: i32)
    ensures n > 0 ==> var t := I32Text(n);
                      t != [] && t[0] != '0' as int && (forall i :: 0 <= i < |t| ==> IsDigit(t[i]))
                      && InBaseTen(t) == n
    ensures n == 0 ==> I32Text(n) == ['0' as int]
    ensures -0x8000_0000 < n < 0 ==> I32Text(n) == ['-' as int] + I32Text(0 - n)
  {
    if n > 0 {
      DigitsInBaseTen(n);
    }
  }

  /** Text is shown up to its first NUL. */
  lemma {:induction false} ShownText(s: seq<u8>)
    ensures UpToNul(s) <= s && 0 !in UpToNul(s)
    ensures |UpToNul(s)| < |s| ==> s[|UpToNul(s)|] == 0
  {
    if s != [] && s[0] != 0 {
      ShownText(s[1..]);
    }
  }

  // Whole programs.

  function MainOf(body: seq<Stmt>): Program {
    Program([FnDef("main", [], body)], [])
  }

  lemma RunsBody(body: seq<Stmt>, depth: nat, fuel: nat)
    ensures var r := ExecStmts(MainOf(body), body, Store(map[], []), depth, fuel);
            RunMain(MainOf(body), depth, fuel) ==
            if r.NoEnd? || !(r.flow.Next? || r.flow.Returned?) then None else Some(r.st.out)
  {
    hide ExecStmts;
  }

  lemma OneStmt(p: Program, stmt: Stmt, s: Store, depth: nat, fuel: nat)
    ensures ExecStmts(p, [stmt], s, depth, fuel) == ExecStmt(p, stmt, s, depth, fuel)
  {
    hide ExecStmt;
    assert [stmt][..0] == [];
    assert ExecStmts(p, [], s, depth, fuel) == End(Next, s);
  }

  /** `fn main() { print(10 - 3) }` prints 7, and so for any two numbers: the printed number is the difference
      modulo 2^32. */
  lemma PrintsDifference(a: i32, b: i32, depth: nat, fuel: nat)
    ensures exists d: i32 :: V.Congruent(d, a - b) &&
              RunMain(MainOf([Print(Bin(IntLit(a), Sub, IntLit(b)))]), depth, fuel) == Some(I32Text(d))
    ensures RunMain(MainOf([Print(Bin(IntLit(10), Sub, IntLit(3)))]), depth, fuel) == Some(['7' as int])
  {
    hide I32Text, RunMain;
    PrintsBinary(a, b, Sub, depth, fuel);
    V.ArithmeticWraps(a, b);
    var d := BinVal(Sub, a, b).value;
    assert V.Congruent(d, a - b);
    PrintsBinary(10, 3, Sub, depth, fuel);
    SevenText();
  }

  lemma SevenText()
    ensures BinVal(Sub, 10, 3) == Some(7) && I32Text(7) == ['7' as int]
  {
    assert Digits(7) == Digits(0) + [55];
  }

  lemma PrintsBinary(a: i32, b: i32, op: BinOp, depth: nat, fuel: nat)
    requires BinVal(op, a, b).Some?
    ensures RunMain(MainOf([Print(Bin(IntLit(a), op, IntLit(b)))]), depth, fuel) ==
            Some(I32Text(BinVal(op, a, b).value))
  {
    hide BinVal, I32Text;
    var body := [Print(Bin(IntLit(a), op, IntLit(b)))];
    var s := Store(map[], []);
    RunsBody(body, depth, fuel);
    OneStmt(MainOf(body), body[0], s, depth, fuel);
    var e := Bin(IntLit(a), op, IntLit(b));
    assert EvalExpr(MainOf(body), e, s, depth, fuel) == Value(BinVal(op, a, b).value, []);
    assert [] + I32Text(BinVal(op, a, b).value) == I32Text(BinVal(op, a, b).value);
  }

  /** The numbers from a up to but not including b, one after the other. */
  function Counted(a: int, b: i32): seq<u8>
    requires -0x8000_0000 <= a
    decreases b - a
  {
    if a >= b then [] else I32Text(a) + Counted(a + 1, b)
  }

  function Counting(a: i32, b: i32, kind: RangeKind): Stmt {
    For("i", IntLit(a), IntLit(b), None, kind, [Print(Var("i"))])
  }

  /** `for i in a..b { print(i) }` prints the numbers a, a + 1, ..., b - 1, and `a..=b` prints b as well. */
  lemma ForCounts(a: i32, b: i32, kind: RangeKind, depth: nat, fuel: nat)
    requires b < 0x7FFF_FFFF && fuel >= b - a + 1
    ensures RunMain(MainOf([Counting(a, b, kind)]), depth, fuel) ==
            Some(Counted(a, if kind.Exclusive? then b else b + 1))
  {
    hide Counted;
    var p := MainOf([Counting(a, b, kind)]);
    var s := Store(map[], []);
    RunsBody([Counting(a, b, kind)], depth, fuel);
    OneStmt(p, Counting(a, b, kind), s, depth, fuel);
    CountRounds(p, a, a, b, kind, Store(s.vars["i" := a], []), depth, fuel);
    assert [] + Counted(a, if kind.Exclusive? then b else b + 1) == Counted(a, if kind.Exclusive? then b else b + 1);
  }

  lemma {:induction false} CountRounds(p: Program, a: i32, i: i32, b: i32, kind: RangeKind, s: Store, depth: nat,
                                       fuel: nat)
    requires p.consts == [] && "i" in s.vars && s.vars["i"] == i && b < 0x7FFF_FFFF && fuel >= b - i + 1
    ensures var r := ExecFor(p, Counting(a, b, kind), s, depth, fuel);
            r.End? && r.flow.Next? && r.st.out == s.out + Counted(i, if kind.Exclusive? then b else b + 1)
    decreases fuel
  {
    hide I32Text;
    var stop := if kind.Exclusive? then b else b + 1;
    if i >= stop {
      assert s.out + [] == s.out;
    } else {
      OneStmt(p, Print(Var("i")), s, depth, fuel);
      var rb := Store(s.vars, s.out + I32Text(i));
      assert ExecStmts(p, [Print(Var("i"))], s, depth, fuel) == End(Next, rb);
      assert Wrap32(i + 1) == i + 1;
      CountRounds(p, a, i + 1, b, kind, Store(rb.vars["i" := i + 1], rb.out), depth, fuel - 1);
      assert (s.out + I32Text(i)) + Counted(i + 1, stop) == s.out + (I32Text(i) + Counted(i + 1, stop));
    }
  }

  /** A constant hides a variable of the same name wherever it is read, even right after an assignment. */
  lemma ConstantWins(x: string, n: i32, v: i32, depth: nat, fuel: nat)
    ensures var p := Program([FnDef("main", [], [Let(x, IntLit(v)), Print(Var(x))])], [(x, n)]);
            RunMain(p, depth, fuel) == Some(I32Text(n))
  {
    hide I32Text, ExecStmts;
    var first, second := Let(x, IntLit(v)), Print(Var(x));
    var p := Program([FnDef("main", [], [first, second])], [(x, n)]);
    var s, t := Store(map[], []), Store(map[x := v], []);
    assert ExecStmt(p, first, s, depth, fuel) == End(Next, t);
    assert EvalExpr(p, Var(x), t, depth, fuel) == Value(n, []);
    assert [] + I32Text(n) == I32Text(n);
    assert [first] + [second] == [first, second];
    FirstStmt(p, first, [second], s, depth, fuel);
    OneStmt(p, second, t, depth, fuel);
  }
}
