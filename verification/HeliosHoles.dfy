/** Address holes in emitted cells: where they are, and what filling them gives. */
module HeliosHoles {
  import opened Bits
  import opened HeliosAst
  import opened Wrappers
  import opened HeliosCode

  /** The byte the emitter has written for a cell: holes are zero until they are patched. */
  function RawByte(c: Cell): u8 {
    match c
    case Byte(b) => b
    case Addr(t, k) => if t.At? && k < 4 then Le32(t.addr)[k] else 0
  }

  ghost predicate IsRaw(code: seq<u8>, cs: seq<Cell>) {
    |code| == |cs| && forall i :: 0 <= i < |cs| ==> code[i] == RawByte(cs[i])
  }

  /** Address bytes come in groups of four, in order. */
  ghost predicate Grouped(cs: seq<Cell>) {
    forall i :: 0 <= i < |cs| && cs[i].Addr? ==> GroupAt(cs, i)
  }

  ghost predicate GroupAt(cs: seq<Cell>, i: nat)
    requires i < |cs| && cs[i].Addr?
  {
    var k, t := cs[i].k, cs[i].t;
    k < 4 && k <= i && i - k + 4 <= |cs| && IsRef(cs, i - k, t)
  }

  ghost predicate IsRef(cs: seq<Cell>, off: nat, t: Target) {
    off + 4 <= |cs| && cs[off] == Addr(t, 0) && cs[off + 1] == Addr(t, 1) && cs[off + 2] == Addr(t, 2)
    && cs[off + 3] == Addr(t, 3)
  }

  /** The offsets, in order, at which the address of t belongs. */
  function Holes(cs: seq<Cell>, t: Target): seq<nat> {
    if cs == [] then [] else
    var k := |cs| - 1;
    Holes(cs[..k], t) + if cs[k] == Addr(t, 0) then [k] else []
  }

  function FnHoles(cs: seq<Cell>): seq<(nat, string)> {
    if cs == [] then [] else
    var k := |cs| - 1;
    FnHoles(cs[..k]) + if cs[k].Addr? && cs[k].t.FnEntry? && cs[k].k == 0 then [(k, cs[k].t.fname)] else []
  }

  lemma {:induction false} HolesAre(cs: seq<Cell>, t: Target, i: int)
    ensures i in Holes(cs, t) <==> 0 <= i < |cs| && cs[i] == Addr(t, 0)
  {
    if cs != [] {
      HolesAre(cs[..|cs| - 1], t, i);
    }
  }

  lemma {:induction false} FnHolesAre(cs: seq<Cell>, i: int, f: string)
    ensures (i, f) in FnHoles(cs) <==> 0 <= i < |cs| && cs[i] == Addr(FnEntry(f), 0)
  {
    if cs != [] {
      FnHolesAre(cs[..|cs| - 1], i, f);
    }
  }

  /** Appending bytes adds no hole; appending an address adds one. */
  lemma {:induction false} HolesOfBytes(cs: seq<Cell>, extra: seq<Cell>, t: Target)
    requires forall i :: 0 <= i < |extra| ==> extra[i].Byte? || extra[i].k != 0
    ensures Holes(cs + extra, t) == Holes(cs, t) && FnHoles(cs + extra) == FnHoles(cs)
  {
    if extra == [] {
      assert cs + extra == cs;
    } else {
      var k := |extra| - 1;
      HolesOfBytes(cs, extra[..k], t);
      assert (cs + extra)[..|cs| + k] == cs + extra[..k];
    }
  }

  lemma HolesOfRef(cs: seq<Cell>, r: Target, t: Target)
    ensures Holes(cs + Ref(r), t) == Holes(cs, t) + if t == r then [|cs|] else []
    ensures FnHoles(cs + Ref(r)) == FnHoles(cs) + if r.FnEntry? then [(|cs|, r.fname)] else []
  {
    var one := cs + [Addr(r, 0)];
    assert one[..|cs|] == cs;
    HolesOfBytes(one, [Addr(r, 1), Addr(r, 2), Addr(r, 3)], t);
    assert one + [Addr(r, 1), Addr(r, 2), Addr(r, 3)] == cs + Ref(r);
  }

  /** Holes depend only on where the first address bytes are. */
  lemma {:induction false} HolesSame(a: seq<Cell>, b: seq<Cell>, t: Target)
    requires |a| == |b| && forall i :: 0 <= i < |a| ==> (a[i] == Addr(t, 0) <==> b[i] == Addr(t, 0))
    ensures Holes(a, t) == Holes(b, t)
  {
    if a != [] {
      HolesSame(a[..|a| - 1], b[..|a| - 1], t);
    }
  }

  ghost predicate IsFnHole(c: Cell) {
    c.Addr? && c.t.FnEntry? && c.k == 0
  }

  lemma {:induction false} FnHolesSame(a: seq<Cell>, b: seq<Cell>)
    requires |a| == |b|
    requires forall i :: 0 <= i < |a| ==> (IsFnHole(a[i]) || IsFnHole(b[i]) ==> a[i] == b[i])
    ensures FnHoles(a) == FnHoles(b)
  {
    if a != [] {
      FnHolesSame(a[..|a| - 1], b[..|a| - 1]);
      assert IsFnHole(a[|a| - 1]) || IsFnHole(b[|a| - 1]) ==> a[|a| - 1] == b[|a| - 1];
    }
  }

  lemma RefKept(cs: seq<Cell>, extra: seq<Cell>, off: nat, t: Target)
    requires IsRef(cs, off, t)
    ensures IsRef(cs + extra, off, t)
  {
  }

  lemma GroupKept(cs: seq<Cell>, extra: seq<Cell>, i: nat)
    requires Grouped(cs) && i < |cs| && cs[i].Addr?
    ensures GroupAt(cs + extra, i)
  {
    hide IsRef;
    assert GroupAt(cs, i);
    RefKept(cs, extra, i - cs[i].k, cs[i].t);
  }

  lemma GroupedAppendByte(cs: seq<Cell>, b: u8)
    requires Grouped(cs)
    ensures Grouped(cs + [Byte(b)])
  {
    hide GroupAt;
    var cs' := cs + [Byte(b)];
    forall i | 0 <= i < |cs'| && cs'[i].Addr?
      ensures GroupAt(cs', i)
    {
      GroupKept(cs, [Byte(b)], i);
    }
  }

  lemma GroupedAppendRef(cs: seq<Cell>, t: Target)
    requires Grouped(cs)
    ensures Grouped(cs + Ref(t))
  {
    hide GroupAt, Ref;
    var cs' := cs + Ref(t);
    forall i | 0 <= i < |cs'| && cs'[i].Addr?
      ensures GroupAt(cs', i)
    {
      if i < |cs| {
        GroupKept(cs, Ref(t), i);
      } else {
        LastGroup(cs, t, i - |cs|);
      }
    }
  }

  lemma LastGroup(cs: seq<Cell>, t: Target, k: nat)
    requires k < 4
    ensures (cs + Ref(t))[|cs| + k].Addr? && GroupAt(cs + Ref(t), |cs| + k)
  {
  }

  /** The cells after one address has been patched in. */
  function Patched(cs: seq<Cell>, off: nat, v: nat): (r: seq<Cell>)
    ensures |r| == |cs|
    ensures forall i :: 0 <= i < |cs| ==> r[i] == if off <= i < off + 4 then Addr(At(v), i - off) else cs[i]
  {
    seq(|cs|, i requires 0 <= i < |cs| => if off <= i < off + 4 then Addr(At(v), i - off) else cs[i])
  }

  lemma PatchedKeeps(cs: seq<Cell>, off: nat, t: Target, v: nat)
    requires Grouped(cs) && IsRef(cs, off, t)
    ensures Grouped(Patched(cs, off, v))
  {
    hide IsRef;
    var cs' := Patched(cs, off, v);
    forall i | 0 <= i < |cs'| && cs'[i].Addr?
      ensures GroupAt(cs', i)
    {
      if off <= i < off + 4 {
        PatchedRef(cs, off, t, v);
      } else {
        assert GroupAt(cs, i);
        KeptRef(cs, off, t, v, i - cs[i].k, cs[i].t, i);
      }
    }
  }

  lemma PatchedRef(cs: seq<Cell>, off: nat, t: Target, v: nat)
    requires IsRef(cs, off, t)
    ensures IsRef(Patched(cs, off, v), off, At(v))
  {
  }

  lemma KeptRef(cs: seq<Cell>, off: nat, t: Target, v: nat, o: nat, u: Target, i: nat)
    requires IsRef(cs, off, t) && IsRef(cs, o, u) && o <= i < o + 4 && !(off <= i < off + 4)
    ensures IsRef(Patched(cs, off, v), o, u)
  {
    GroupsDisjoint(cs, off, t, o, u);
  }

  lemma GroupsDisjoint(cs: seq<Cell>, a: nat, t: Target, b: nat, u: Target)
    requires IsRef(cs, a, t) && IsRef(cs, b, u)
    ensures a == b || a + 4 <= b || b + 4 <= a
  {
    assert a <= b < a + 4 ==> cs[b].k == b - a;
    assert b <= a < b + 4 ==> cs[a].k == a - b;
  }

  /** Replacing the targets of loop d by the addresses after and next. */
  function FillTarget(t: Target, d: nat, after: nat, next: nat): Target {
    if t == BreakOf(d) then At(after) else if t == ContinueOf(d) then At(next) else t
  }

  function FillCell(c: Cell, d: nat, after: nat, next: nat): Cell {
    if c.Addr? then c.(t := FillTarget(c.t, d, after, next)) else c
  }

  function Fill(cs: seq<Cell>, d: nat, after: nat, next: nat): (r: seq<Cell>)
    ensures |r| == |cs|
    ensures forall i :: 0 <= i < |cs| ==> r[i] == FillCell(cs[i], d, after, next)
  {
    seq(|cs|, i requires 0 <= i < |cs| => FillCell(cs[i], d, after, next))
  }

  /** Two versions of the same code that differ only in the targets of the enclosing loop. */
  datatype Renaming = Renaming(brk1: Target, cont1: Target, brk2: Target, cont2: Target)

  ghost predicate SameCell(c: Cell, c': Cell, r: Renaming) {
    || (c == c' && (c.Addr? ==> c.t.At? || c.t.FnEntry?))
    || (c.Addr? && c.t == r.brk1 && c' == Addr(r.brk2, c.k))
    || (c.Addr? && c.t == r.cont1 && c' == Addr(r.cont2, c.k))
  }

  ghost predicate Renamed(cs: seq<Cell>, cs': seq<Cell>, r: Renaming) {
    |cs| == |cs'| && forall i :: 0 <= i < |cs| ==> SameCell(cs[i], cs'[i], r)
  }

  lemma RenamedConcat(a: seq<Cell>, a': seq<Cell>, b: seq<Cell>, b': seq<Cell>, r: Renaming)
    requires Renamed(a, a', r) && Renamed(b, b', r)
    ensures Renamed(a + b, a' + b', r)
  {
  }

  /** No cell waits for a loop. */
  ghost predicate Known(cs: seq<Cell>) {
    forall i :: 0 <= i < |cs| && cs[i].Addr? ==> cs[i].t.At? || cs[i].t.FnEntry?
  }

  lemma KnownRenamed(cs: seq<Cell>, r: Renaming)
    requires Known(cs)
    ensures Renamed(cs, cs, r)
  {
  }

  lemma {:induction false} ExprKnown(n: Names, e: Expr)
    ensures Known(ExprCells(n, e))
    decreases e, 0
  {
    hide Known, Op, OpImm, OpRef, Lits, IndexOf, BinByte, UnByte, CastByte;
    match e
    case Un(op, a) =>
      ExprKnown(n, a);
      Plain(UnByte(op), 0, 0);
      KnownConcat(ExprCells(n, a), Op(UnByte(op)));
    case Bin(a, op, b) =>
      ExprKnown(n, a);
      ExprKnown(n, b);
      Plain(BinByte(op), 0, 0);
      KnownConcat(ExprCells(n, a), ExprCells(n, b));
      KnownConcat(ExprCells(n, a) + ExprCells(n, b), Op(BinByte(op)));
    case Cast(a, t) =>
      ExprKnown(n, a);
      Plain(CastByte(t), 0, 0);
      KnownConcat(ExprCells(n, a), Op(CastByte(t)));
    case Call(f, args) =>
      ArgsKnown(n, args);
      Plain(PUSH, |args|, 0);
      CallKnown(f);
      KnownConcat(ArgsCells(n, args), OpImm(PUSH, |args|));
      KnownConcat(ArgsCells(n, args) + OpImm(PUSH, |args|), OpRef(CALL, FnEntry(f)));
    case IntLit(v) => Plain(PUSH, v, 0);
    case BoolLit(b) => Plain(PUSH, OfBool(b), 0);
    case StrLit(t) => StrKnown(IndexOf(n.pool, t + [0]));
    case Var(x) =>
      if FindConst(n.consts, x).Some? {
        Plain(PUSH, FindConst(n.consts, x).value, 0);
      } else {
        Plain(LOADLOCAL, IndexOf(n.locals, x), 0);
      }
  }

  lemma CallKnown(f: string)
    ensures Known(OpRef(CALL, FnEntry(f)))
  {
  }

  lemma StrKnown(i: nat)
    ensures Known([Byte(PUSHSTR)] + Lits(Le16(i)))
  {
  }

  lemma {:induction false} ArgsKnown(n: Names, args: seq<Expr>)
    ensures Known(ArgsCells(n, args))
    decreases args, 0
  {
    hide Known;
    if args == [] {
      KnownNone();
    } else {
      var k := |args| - 1;
      ArgsKnown(n, args[..k]);
      ExprKnown(n, args[k]);
      KnownConcat(ArgsCells(n, args[..k]), ExprCells(n, args[k]));
    }
  }

  lemma KnownConcat(a: seq<Cell>, b: seq<Cell>)
    requires Known(a) && Known(b)
    ensures Known(a + b)
  {
  }

  lemma Known4(a: seq<Cell>, b: seq<Cell>, c: seq<Cell>, d: seq<Cell>)
    requires Known(a) && Known(b) && Known(c) && Known(d)
    ensures Known(a + b + c + d)
  {
    KnownConcat(a, b);
    KnownConcat(a + b, c);
    KnownConcat(a + b + c, d);
  }

  lemma Plain(b: u8, v: int, a: nat)
    ensures Known(Op(b)) && Known(OpImm(b, v)) && Known(OpRef(b, At(a)))
  {
  }

  lemma Renamed5(a: seq<Cell>, b: seq<Cell>, b': seq<Cell>, c: seq<Cell>, d: seq<Cell>, d': seq<Cell>, r: Renaming)
    requires Known(a) && Known(c) && Renamed(b, b', r) && Renamed(d, d', r)
    ensures Renamed(a + b + c + d, a + b' + c + d', r)
  {
    hide Renamed;
    KnownRenamed(a, r);
    KnownRenamed(c, r);
    RenamedConcat(a, a, b, b', r);
    RenamedConcat(a + b, a + b', c, c, r);
    RenamedConcat(a + b + c, a + b' + c, d, d', r);
  }

  /** A statement's code depends on its loop only through the two targets. */
  lemma {:induction false} StmtRenamed(n: Names, s: Stmt, base: nat, r: Renaming)
    ensures Renamed(StmtCells(n, s, base, r.brk1, r.cont1), StmtCells(n, s, base, r.brk2, r.cont2), r)
    decreases s, 1
  {
    hide ExprCells, StmtsCells, ArmsCells, Renamed, Known, Op, OpRef;
    match s
    case If(c, t, e) =>
      var tbase := base + ExprLen(c) + 5;
      var ebase := tbase + StmtsLen(t) + 5;
      ExprKnown(n, c);
      StmtsRenamed(n, t, tbase, r);
      StmtsRenamed(n, e, ebase, r);
      Plain(JZ, 0, ebase);
      Plain(JMP, 0, ebase + StmtsLen(e));
      KnownConcat(ExprCells(n, c), OpRef(JZ, At(ebase)));
      Renamed5(ExprCells(n, c) + OpRef(JZ, At(ebase)),
               StmtsCells(n, t, tbase, r.brk1, r.cont1), StmtsCells(n, t, tbase, r.brk2, r.cont2),
               OpRef(JMP, At(ebase + StmtsLen(e))),
               StmtsCells(n, e, ebase, r.brk1, r.cont1), StmtsCells(n, e, ebase, r.brk2, r.cont2), r);
    case Match(e, arms) =>
      var abase := base + ExprLen(e);
      var end := abase + ArmsLen(arms) + ArmsTailLen(arms);
      var tail := if ArmsTailLen(arms) == 1 then Op(POP) else [];
      ExprKnown(n, e);
      ArmsRenamed(n, arms, abase, end, r);
      Plain(POP, 0, 0);
      KnownRenamed(ExprCells(n, e), r);
      KnownNone();
      KnownRenamed(tail, r);
      var a, a' := ArmsCells(n, arms, abase, end, r.brk1, r.cont1), ArmsCells(n, arms, abase, end, r.brk2, r.cont2);
      RenamedConcat(ExprCells(n, e), ExprCells(n, e), a, a', r);
      RenamedConcat(ExprCells(n, e) + a, ExprCells(n, e) + a', tail, tail, r);
    case Break => JumpRenamed(r);
    case Continue => JumpRenamed(r);
    case _ =>
      StmtKnown(n, s, base, r.brk1, r.cont1);
      KnownRenamed(StmtCells(n, s, base, r.brk1, r.cont1), r);
  }

  lemma KnownNone()
    ensures Known([])
  {
  }

  lemma JumpRenamed(r: Renaming)
    ensures Renamed(OpRef(JMP, r.brk1), OpRef(JMP, r.brk2), r)
    ensures Renamed(OpRef(JMP, r.cont1), OpRef(JMP, r.cont2), r)
  {
  }

  /** Loops and simple statements wait for nothing outside themselves. */
  lemma {:induction false} StmtKnown(n: Names, s: Stmt, base: nat, brk: Target, cont: Target)
    requires !s.If? && !s.Match? && !s.Break? && !s.Continue?
    ensures Known(StmtCells(n, s, base, brk, cont))
    decreases s, 0
  {
    hide ExprCells, StmtsCells, Known, Op, OpImm, OpRef, ForCells;
    match s
    case Let(x, e) =>
      ExprKnown(n, e);
      Plain(STORELOCAL, IndexOf(n.locals, x), 0);
      KnownConcat(ExprCells(n, e), OpImm(STORELOCAL, IndexOf(n.locals, x)));
    case Assign(x, e) =>
      ExprKnown(n, e);
      Plain(STORELOCAL, IndexOf(n.locals, x), 0);
      KnownConcat(ExprCells(n, e), OpImm(STORELOCAL, IndexOf(n.locals, x)));
    case CompoundAssign(x, op, e) =>
      var i := IndexOf(n.locals, x);
      ExprKnown(n, e);
      Plain(LOADLOCAL, i, 0);
      Plain(STORELOCAL, i, 0);
      Plain(BinByte(CompoundOp(op)), 0, 0);
      Known4(OpImm(LOADLOCAL, i), ExprCells(n, e), Op(BinByte(CompoundOp(op))), OpImm(STORELOCAL, i));
    case While(c, b) =>
      var bbase := base + ExprLen(c) + 5;
      var next := bbase + StmtsLen(b);
      ExprKnown(n, c);
      BodyKnown(n, b, bbase, next + 5, next);
      Plain(JZ, 0, next + 5);
      Plain(JMP, 0, base);
      Known4(ExprCells(n, c), OpRef(JZ, At(next + 5)), StmtsCells(n, b, bbase, At(next + 5), At(next)), OpRef(JMP, At(base)));
    case Loop(b) =>
      var next := base + StmtsLen(b);
      BodyKnown(n, b, base, next + 5, next);
      Plain(JMP, 0, base);
      KnownConcat(StmtsCells(n, b, base, At(next + 5), At(next)), OpRef(JMP, At(base)));
    case For(x, start, end, step, kind, b) =>
      var i := IndexOf(n.locals, x);
      var top := base + ExprLen(start) + 5;
      ExprKnown(n, start);
      Plain(STORELOCAL, i, 0);
      ForKnown(n, x, end, step, kind, b, top);
      KnownConcat(ExprCells(n, start), OpImm(STORELOCAL, i));
      KnownConcat(ExprCells(n, start) + OpImm(STORELOCAL, i), ForCells(n, x, end, step, kind, b, top));
    case Return(e) =>
      ExprKnown(n, e);
      Plain(RET, 0, 0);
      KnownConcat(ExprCells(n, e), Op(RET));
    case Print(e) =>
      var b := if e.StrLit? then PRINT else PRINTNUM;
      ExprKnown(n, e);
      Plain(b, 0, 0);
      KnownConcat(ExprCells(n, e), Op(b));
    case ExprStmt(e) =>
      ExprKnown(n, e);
      Plain(POP, 0, 0);
      KnownConcat(ExprCells(n, e), Op(POP));
  }

  lemma {:induction false} ForKnown(n: Names, x: string, end: Expr, step: Option<Expr>, kind: RangeKind,
                                    body: seq<Stmt>, top: nat)
    ensures Known(ForCells(n, x, end, step, kind, body, top))
    decreases body, 2
  {
    hide ExprCells, StmtsCells, Known, Op, OpImm, OpRef;
    var i := IndexOf(n.locals, x);
    var bbase := top + ExprLen(end) + 11;
    var next := bbase + StmtsLen(body);
    var after := top + ForLen(end, step, body);
    var test := if kind.Exclusive? then CMPLT else CMPLE;
    ExprKnown(n, end);
    if step.Some? {
      ExprKnown(n, step.value);
    }
    BodyKnown(n, body, bbase, after, next);
    Plain(LOADLOCAL, i, 0);
    Plain(STORELOCAL, i, 0);
    Plain(PUSH, 1, 0);
    Plain(test, 0, 0);
    Plain(ADD, 0, 0);
    Plain(JZ, 0, after);
    Plain(JMP, 0, top);
    var inc := if step.None? then OpImm(PUSH, 1) else ExprCells(n, step.value);
    Known4(OpImm(LOADLOCAL, i), ExprCells(n, end), Op(test), OpRef(JZ, At(after)));
    Known4(OpImm(LOADLOCAL, i), inc, Op(ADD), OpImm(STORELOCAL, i));
    KnownConcat(OpImm(LOADLOCAL, i) + inc + Op(ADD) + OpImm(STORELOCAL, i), OpRef(JMP, At(top)));
    var h, t := ForHead(n, i, end, kind, At(after)), ForTail(n, i, step, top);
    KnownConcat(h, StmtsCells(n, body, bbase, At(after), At(next)));
    KnownConcat(h + StmtsCells(n, body, bbase, At(after), At(next)), t);
  }

  lemma {:induction false} BodyKnown(n: Names, b: seq<Stmt>, base: nat, x: nat, y: nat)
    ensures Known(StmtsCells(n, b, base, At(x), At(y)))
    decreases b, 1
  {
    hide StmtsCells;
    var r := Renaming(At(x), At(y), At(x), At(y));
    var cs := StmtsCells(n, b, base, At(x), At(y));
    StmtsRenamed(n, b, base, r);
    forall i | 0 <= i < |cs| && cs[i].Addr?
      ensures cs[i].t.At? || cs[i].t.FnEntry?
    {
      assert SameCell(cs[i], cs[i], r);
    }
  }

  lemma {:induction false} StmtsRenamed(n: Names, ss: seq<Stmt>, base: nat, r: Renaming)
    ensures Renamed(StmtsCells(n, ss, base, r.brk1, r.cont1), StmtsCells(n, ss, base, r.brk2, r.cont2), r)
    decreases ss, 0
  {
    hide StmtCells, Renamed;
    RenamedNone(r);
    if ss != [] {
      var k := |ss| - 1;
      var at := base + StmtsLen(ss[..k]);
      StmtsRenamed(n, ss[..k], base, r);
      StmtRenamed(n, ss[k], at, r);
      RenamedConcat(StmtsCells(n, ss[..k], base, r.brk1, r.cont1), StmtsCells(n, ss[..k], base, r.brk2, r.cont2),
                    StmtCells(n, ss[k], at, r.brk1, r.cont1), StmtCells(n, ss[k], at, r.brk2, r.cont2), r);
    }
  }

  lemma RenamedNone(r: Renaming)
    ensures Renamed([], [], r)
  {
  }

  lemma {:induction false} ArmsRenamed(n: Names, arms: seq<Arm>, base: nat, end: nat, r: Renaming)
    ensures Renamed(ArmsCells(n, arms, base, end, r.brk1, r.cont1), ArmsCells(n, arms, base, end, r.brk2, r.cont2), r)
    decreases arms, 0
  {
    hide ArmCells, Renamed;
    RenamedNone(r);
    if arms != [] {
      var k := |arms| - 1;
      var at := base + ArmsLen(arms[..k]);
      ArmsRenamed(n, arms[..k], base, end, r);
      ArmRenamed(n, arms[k], at, end, r);
      RenamedConcat(ArmsCells(n, arms[..k], base, end, r.brk1, r.cont1),
                    ArmsCells(n, arms[..k], base, end, r.brk2, r.cont2),
                    ArmCells(n, arms[k], at, end, r.brk1, r.cont1), ArmCells(n, arms[k], at, end, r.brk2, r.cont2), r);
    }
  }

  lemma {:induction false} ArmRenamed(n: Names, a: Arm, at: nat, end: nat, r: Renaming)
    ensures Renamed(ArmCells(n, a, at, end, r.brk1, r.cont1), ArmCells(n, a, at, end, r.brk2, r.cont2), r)
    decreases a, 0
  {
    hide StmtsCells, Renamed, ArmTest, Op, OpRef, Known;
    var base := at + (if a.pat.Wildcard? then 1 else 13);
    var b, b' := StmtsCells(n, a.body, base, r.brk1, r.cont1), StmtsCells(n, a.body, base, r.brk2, r.cont2);
    StmtsRenamed(n, a.body, base, r);
    Plain(POP, 0, 0);
    Plain(JMP, 0, end);
    if a.pat.Wildcard? {
      KnownRenamed(Op(POP), r);
      RenamedConcat(Op(POP), Op(POP), b, b', r);
    } else {
      var test := ArmTest(a.pat.lit, At(at + ArmLen(a)));
      TestKnown(a.pat.lit, at + ArmLen(a));
      KnownRenamed(test, r);
      KnownRenamed(OpRef(JMP, At(end)), r);
      RenamedConcat(test, test, b, b', r);
      RenamedConcat(test + b, test + b', OpRef(JMP, At(end)), OpRef(JMP, At(end)), r);
    }
  }

  lemma TestKnown(lit: i32, miss: nat)
    ensures Known(ArmTest(lit, At(miss)))
  {
    hide Known, Op, OpImm, OpRef;
    Plain(DUP, 0, 0);
    Plain(PUSH, lit, 0);
    Plain(CMPEQ, 0, 0);
    Plain(JZ, 0, miss);
    Plain(POP, 0, 0);
    Known4(Op(DUP), OpImm(PUSH, lit), Op(CMPEQ), OpRef(JZ, At(miss)));
    KnownConcat(Op(DUP) + OpImm(PUSH, lit) + Op(CMPEQ) + OpRef(JZ, At(miss)), Op(POP));
  }

  /** Filling the holes of a loop body gives the body with its targets known. */
  lemma FillBody(n: Names, b: seq<Stmt>, base: nat, d: nat, after: nat, next: nat)
    ensures Fill(StmtsCells(n, b, base, BreakOf(d), ContinueOf(d)), d, after, next)
            == StmtsCells(n, b, base, At(after), At(next))
  {
    hide StmtsCells;
    var r := Renaming(BreakOf(d), ContinueOf(d), At(after), At(next));
    StmtsRenamed(n, b, base, r);
    var cs, cs' := StmtsCells(n, b, base, BreakOf(d), ContinueOf(d)), StmtsCells(n, b, base, At(after), At(next));
    forall i | 0 <= i < |cs|
      ensures Fill(cs, d, after, next)[i] == cs'[i]
    {
      assert SameCell(cs[i], cs'[i], r);
    }
  }

  lemma PatchedMiddle(a: seq<Cell>, b: seq<Cell>, v: nat)
    ensures Patched(a + Ref(Pending) + b, |a|, v) == a + Ref(At(v)) + b
    ensures IsRef(a + Ref(Pending) + b, |a|, Pending)
  {
    var l, r := Patched(a + Ref(Pending) + b, |a|, v), a + Ref(At(v)) + b;
    forall i | 0 <= i < |l|
      ensures l[i] == r[i]
    {
      assert |a| <= i < |a| + 4 ==> r[i] == Ref(At(v))[i - |a|];
    }
  }

  /** The cells of f before the addresses at the offsets in s have been patched in. */
  function Unpatched(f: seq<Cell>, s: set<nat>): (r: seq<Cell>)
    ensures |r| == |f|
    ensures forall i :: 0 <= i < |f| ==> r[i] == UnpatchedCell(f, s, i)
  {
    seq(|f|, i requires 0 <= i < |f| => UnpatchedCell(f, s, i))
  }

  function UnpatchedCell(f: seq<Cell>, s: set<nat>, i: nat): Cell
    requires i < |f|
  {
    if f[i].Addr? && f[i].k <= i && i - f[i].k in s then Addr(Pending, f[i].k) else f[i]
  }

  lemma UnpatchedNone(f: seq<Cell>)
    ensures Unpatched(f, {}) == f
  {
  }

  lemma UnpatchedAppend(f: seq<Cell>, s: set<nat>, g: seq<Cell>)
    requires forall o :: o in s ==> o < |f|
    requires Grouped(g)
    ensures Unpatched(f, s) + g == Unpatched(f + g, s)
  {
    hide Grouped, UnpatchedCell;
    var l, r := Unpatched(f, s) + g, Unpatched(f + g, s);
    forall i | 0 <= i < |l|
      ensures l[i] == r[i]
    {
      UnpatchedThere(f, s, g, i);
    }
  }

  lemma UnpatchedThere(f: seq<Cell>, s: set<nat>, g: seq<Cell>, i: nat)
    requires (forall o :: o in s ==> o < |f|) && Grouped(g) && i < |f| + |g|
    ensures UnpatchedCell(f + g, s, i) == if i < |f| then UnpatchedCell(f, s, i) else g[i - |f|]
  {
    hide Grouped;
    if i >= |f| {
      assert (f + g)[i] == g[i - |f|];
      GroupInside(g, i - |f|);
    } else {
      assert (f + g)[i] == f[i];
    }
  }

  lemma GroupInside(cs: seq<Cell>, i: nat)
    requires Grouped(cs) && i < |cs|
    ensures cs[i].Addr? ==> cs[i].k <= i && cs[i].k < 4 && IsRef(cs, i - cs[i].k, cs[i].t)
  {
    hide IsRef;
    assert cs[i].Addr? ==> GroupAt(cs, i);
  }

  /** An address starts with its first byte. */
  lemma GroupStart(cs: seq<Cell>, off: nat, t: Target)
    requires Grouped(cs) && off < |cs| && cs[off] == Addr(t, 0)
    ensures IsRef(cs, off, t)
  {
    hide Grouped, IsRef;
    GroupInside(cs, off);
  }

  /** Emitting an address to be patched later. */
  lemma UnpatchedHole(f: seq<Cell>, s: set<nat>, v: nat)
    requires forall o :: o in s ==> o + 4 <= |f|
    ensures Unpatched(f, s) + Ref(Pending) == Unpatched(f + Ref(At(v)), s + {|f|})
  {
    var l, r := Unpatched(f, s) + Ref(Pending), Unpatched(f + Ref(At(v)), s + {|f|});
    forall i | 0 <= i < |l|
      ensures l[i] == r[i]
    {
      if i >= |f| {
        assert (f + Ref(At(v)))[i] == Ref(At(v))[i - |f|];
      } else {
        assert (f + Ref(At(v)))[i] == f[i];
      }
    }
  }

  lemma RefCell(f: seq<Cell>, off: nat, t: Target, i: nat)
    requires IsRef(f, off, t) && off <= i < off + 4
    ensures i < |f| && f[i] == Addr(t, i - off)
  {
  }

  lemma AllRef(f: seq<Cell>, off: nat, t: Target)
    requires off + 4 <= |f| && forall i :: off <= i < off + 4 ==> f[i] == Addr(t, i - off)
    ensures IsRef(f, off, t)
  {
  }

  lemma GroupIndex(f: seq<Cell>, i: nat)
    requires Grouped(f) && i < |f| && f[i].Addr?
    ensures f[i].k < 4
  {
    assert GroupAt(f, i);
  }

  lemma UnpatchedPatchAt(f: seq<Cell>, s: set<nat>, off: nat, v: nat, i: nat)
    requires i < |f| && off in s
    requires off <= i < off + 4 ==> f[i] == Addr(At(v), i - off)
    requires f[i].Addr? ==> f[i].k < 4
    ensures (if off <= i < off + 4 then Addr(At(v), i - off) else UnpatchedCell(f, s, i)) == UnpatchedCell(f, s - {off}, i)
    ensures off <= i < off + 4 ==> UnpatchedCell(f, s, i) == Addr(Pending, i - off)
  {
  }

  lemma PatchedCell(f: seq<Cell>, s: set<nat>, off: nat, v: nat, i: nat)
    requires Grouped(f) && off in s && IsRef(f, off, At(v)) && i < |f|
    ensures (if off <= i < off + 4 then Addr(At(v), i - off) else UnpatchedCell(f, s, i)) == UnpatchedCell(f, s - {off}, i)
    ensures off <= i < off + 4 ==> UnpatchedCell(f, s, i) == Addr(Pending, i - off)
  {
    hide IsRef, Grouped, UnpatchedCell;
    if off <= i < off + 4 {
      RefCell(f, off, At(v), i);
    }
    if f[i].Addr? {
      GroupIndex(f, i);
    }
    UnpatchedPatchAt(f, s, off, v, i);
  }

  /** Patching one of the missing addresses. */
  lemma UnpatchedPatch(f: seq<Cell>, s: set<nat>, off: nat, v: nat)
    requires Grouped(f) && off in s && IsRef(f, off, At(v))
    ensures IsRef(Unpatched(f, s), off, Pending)
    ensures Patched(Unpatched(f, s), off, v) == Unpatched(f, s - {off})
  {
    hide IsRef, Grouped, UnpatchedCell;
    RefCell(f, off, At(v), off + 3);
    var u := Unpatched(f, s);
    var l, r := Patched(u, off, v), Unpatched(f, s - {off});
    forall i | 0 <= i < |f|
      ensures l[i] == r[i]
      ensures off <= i < off + 4 ==> u[i] == Addr(Pending, i - off)
    {
      PatchedCell(f, s, off, v, i);
    }
    AllRef(u, off, Pending);
    assert l == r;
  }

  /** cs is f with the addresses at the offsets in e still to be patched in. */
  ghost predicate Awaits(cs: seq<Cell>, f: seq<Cell>, e: set<nat>) {
    cs == Unpatched(f, e) && Grouped(f) && forall o :: o in e ==> o + 4 <= |f|
  }

  lemma GroupedConcat(a: seq<Cell>, b: seq<Cell>)
    requires Grouped(a) && Grouped(b)
    ensures Grouped(a + b)
  {
    hide IsRef;
    var cs := a + b;
    forall i | 0 <= i < |cs| && cs[i].Addr?
      ensures GroupAt(cs, i)
    {
      if i < |a| {
        assert GroupAt(a, i);
        RefInside(a, b, i - a[i].k, a[i].t);
      } else {
        assert cs[i] == b[i - |a|];
        assert GroupAt(b, i - |a|);
        RefShifted(a, b, i - |a| - b[i - |a|].k, cs[i].t);
      }
    }
  }

  lemma RefInside(a: seq<Cell>, b: seq<Cell>, o: nat, t: Target)
    requires IsRef(a, o, t)
    ensures IsRef(a + b, o, t)
  {
  }

  lemma RefShifted(a: seq<Cell>, b: seq<Cell>, o: nat, t: Target)
    requires IsRef(b, o, t)
    ensures IsRef(a + b, |a| + o, t)
  {
  }

  lemma RefUnshifted(a: seq<Cell>, b: seq<Cell>, o: nat, t: Target)
    requires IsRef(a + b, o, t) && o >= |a|
    ensures IsRef(b, o - |a|, t)
  {
    var p := o - |a|;
    assert b[p] == (a + b)[o] && b[p + 1] == (a + b)[o + 1] && b[p + 2] == (a + b)[o + 2] && b[p + 3] == (a + b)[o + 3];
  }

  /** What is appended to grouped cells and leaves them grouped is grouped itself. */
  lemma SuffixGrouped(a: seq<Cell>, g: seq<Cell>)
    requires Grouped(a) && Grouped(a + g)
    ensures Grouped(g)
  {
    hide IsRef;
    var cs := a + g;
    forall i | 0 <= i < |g| && g[i].Addr?
      ensures GroupAt(g, i)
    {
      assert cs[|a| + i] == g[i];
      assert GroupAt(cs, |a| + i);
      var o := |a| + i - g[i].k;
      NoStraddle(a, g, o, g[i].t);
      RefUnshifted(a, g, o, g[i].t);
    }
  }

  lemma NoStraddle(a: seq<Cell>, g: seq<Cell>, o: nat, t: Target)
    requires Grouped(a) && IsRef(a + g, o, t)
    ensures o < |a| ==> o + 4 <= |a|
  {
    if o < |a| {
      assert (a + g)[o] == a[o];
      assert GroupAt(a, o);
    }
  }

  lemma GroupedPlain(bs: seq<Cell>)
    requires forall i :: 0 <= i < |bs| ==> bs[i].Byte?
    ensures Grouped(bs)
  {
  }

  lemma AwaitsAppend(cs: seq<Cell>, f: seq<Cell>, e: set<nat>, g: seq<Cell>)
    requires Awaits(cs, f, e) && Grouped(g)
    ensures Awaits(cs + g, f + g, e)
  {
    hide Grouped, Unpatched;
    GroupedConcat(f, g);
    UnpatchedAppend(f, e, g);
  }

  lemma AwaitsHole(cs: seq<Cell>, f: seq<Cell>, e: set<nat>, v: nat)
    requires Awaits(cs, f, e)
    ensures Awaits(cs + Ref(Pending), f + Ref(At(v)), e + {|f|})
    ensures IsRef(f + Ref(At(v)), |f|, At(v))
  {
    hide Grouped, Unpatched;
    GroupedAppendRef(f, At(v));
    UnpatchedHole(f, e, v);
  }

  lemma AwaitsPatch(cs: seq<Cell>, f: seq<Cell>, e: set<nat>, off: nat, v: nat)
    requires Awaits(cs, f, e) && off in e && IsRef(f, off, At(v))
    ensures IsRef(cs, off, Pending)
    ensures Awaits(Patched(cs, off, v), f, e - {off})
  {
    hide Grouped, Unpatched;
    UnpatchedPatch(f, e, off, v);
  }
}
