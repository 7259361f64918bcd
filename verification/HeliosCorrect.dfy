/**
 * Compiler correctness: loading the image of a program and running it from its entry address
 * prints exactly what the source prints, whenever the source finishes.
 */
module HeliosCorrect {
  import opened Bits
  import opened HeliosAst
  import opened Wrappers
  import opened HeliosSemantics
  import opened HeliosCode
  import opened HeliosVm
  import opened HeliosLink
  import opened HeliosNames
  import opened HeliosSimulation

  function LinkedProgram(p: Program): Linked {
    var im := ProgramImage(p);
    Linked(p, Machine(im.code, im.pool), Entries(p.fns), MaxFrame(p.consts, p.fns))
  }

  lemma {:induction false} PoolGrows(fns: seq<FnDef>, consts: seq<(string, i32)>, i: nat)
    requires i < |fns|
    ensures FnNames(PoolOf(fns[..i], consts), consts, fns[i]).pool <= PoolOf(fns, consts)
  {
    hide FnNames;
    var k := |fns| - 1;
    if i < k {
      PoolGrows(fns[..k], consts, i);
      assert fns[..k][..i] == fns[..i];
      FnLocals(PoolOf(fns[..k], consts), consts, fns[k]);
    }
  }

  /** The i-th function's cells, with its entry address. */
  lemma {:induction false} FnAt(fns: seq<FnDef>, consts: seq<(string, i32)>, pool: seq<seq<u8>>, i: nat)
    requires i < |fns|
    ensures var a := FnsLen(fns[..i]);
            var cs := FnsCells(fns, consts, pool);
            && Entries(fns)[i] == (fns[i].name, a)
            && a + FnLen(fns[i]) <= |cs|
            && cs[a..a + FnLen(fns[i])] == FnCells(Names(SlotsOf(consts, fns[i]), pool, consts), fns[i], a)
  {
    hide FnCells, FnLen, SlotsOf;
    var k := |fns| - 1;
    var before := FnsCells(fns[..k], consts, pool);
    var last := FnCells(Names(SlotsOf(consts, fns[k]), pool, consts), fns[k], FnsLen(fns[..k]));
    if i < k {
      FnAt(fns[..k], consts, pool, i);
      assert fns[..k][..i] == fns[..i];
      EarlySlice(before, last, FnsLen(fns[..i]), FnsLen(fns[..i]) + FnLen(fns[i]));
    } else {
      assert (before + last)[|before|..|before| + |last|] == last;
    }
  }

  lemma EarlySlice<T>(x: seq<T>, y: seq<T>, a: nat, b: nat)
    requires a <= b <= |x|
    ensures (x + y)[a..b] == x[a..b]
  {
  }

  ghost predicate IsFirst(fns: seq<FnDef>, name: string, i: nat)
    requires i < |fns|
  {
    && FindFn(fns, name) == Some(fns[i]) && fns[i].name == name
    && forall j :: 0 <= j < i ==> fns[j].name != name
  }

  lemma {:induction false} FirstFn(fns: seq<FnDef>, name: string)
    requires FindFn(fns, name).Some?
    ensures exists i :: 0 <= i < |fns| && IsFirst(fns, name, i)
  {
    if fns[0].name != name {
      FirstFn(fns[1..], name);
      var i :| 0 <= i < |fns[1..]| && IsFirst(fns[1..], name, i);
      assert fns[1..][i] == fns[i + 1];
      forall j | 0 <= j < i + 1
        ensures fns[j].name != name
      {
        if j > 0 {
          assert fns[1..][j - 1].name != name;
        }
      }
      assert IsFirst(fns, name, i + 1);
    } else {
      assert IsFirst(fns, name, 0);
    }
  }

  lemma {:induction false} FirstEntry(es: seq<(string, nat)>, name: string, i: nat)
    requires i < |es| && es[i].0 == name && forall j :: 0 <= j < i ==> es[j].0 != name
    ensures FindEntry(es, name) == Some(es[i].1)
  {
    if i > 0 {
      assert es[0].0 != name;
      FirstEntry(es[1..], name, i - 1);
    }
  }

  lemma {:induction false} FrameBound(consts: seq<(string, i32)>, fns: seq<FnDef>, i: nat)
    requires i < |fns|
    ensures FrameNeed(consts, fns[i]) <= MaxFrame(consts, fns)
  {
    hide FrameNeed;
    if i > 0 {
      FrameBound(consts, fns[1..], i - 1);
    }
  }

  lemma ParamsAreSlots(consts: seq<(string, i32)>, f: FnDef)
    requires Distinct(f.params)
    ensures f.params <= SlotsOf(consts, f)
  {
    ParamsFirst(Names([], [], consts), f.params);
    StmtsGrow(AddLocals(Names([], [], consts), f.params), f.body);
  }

  /** The tables of function i cover its body, also with the final string pool. */
  lemma BodyCovered(p: Program, i: nat)
    requires i < |p.fns|
    ensures CoversStmts(Names(SlotsOf(p.consts, p.fns[i]), PoolOf(p.fns, p.consts), p.consts), p.fns[i].body)
  {
    var f := p.fns[i];
    var pool := PoolOf(p.fns[..i], p.consts);
    var n0 := AddLocals(Names([], pool, p.consts), f.params);
    var n1 := FnNames(pool, p.consts, f);
    FnLocals(pool, p.consts, f);
    StmtsCovered(n0, f.body);
    PoolGrows(p.fns, p.consts, i);
    StmtsStable(n1, Names(SlotsOf(p.consts, f), PoolOf(p.fns, p.consts), p.consts), f.body, 0, At(0), At(0));
  }

  lemma CodeHasFn(p: Program, i: nat)
    requires i < |p.fns|
    ensures var l := LinkedProgram(p);
            var a := FnsLen(p.fns[..i]);
            HasCells(l.m.code, a, FnCells(NamesOf(l, p.fns[i]), p.fns[i], a), l.entries)
  {
    hide FnsCells, FnCells, FnLen, SlotsOf, FnsLen, Entries, PoolOf;
    var l := LinkedProgram(p);
    var a := FnsLen(p.fns[..i]);
    var cs := FnsCells(p.fns, p.consts, l.m.pool);
    var fc := FnCells(NamesOf(l, p.fns[i]), p.fns[i], a);
    FnAt(p.fns, p.consts, l.m.pool, i);
    forall j | 0 <= j < |fc|
      ensures l.m.code[a + j] == CellByte(fc[j], l.entries)
    {
      assert cs[a + j] == cs[a..a + FnLen(p.fns[i])][j];
    }
  }

  lemma EntryOfFn(p: Program, name: string, i: nat)
    requires i < |p.fns| && IsFirst(p.fns, name, i)
    ensures FindEntry(Entries(p.fns), name) == Some(FnsLen(p.fns[..i]))
  {
    hide FnsCells, FnCells, SlotsOf, FindEntry, FnsLen, Entries;
    forall j | 0 <= j <= i
      ensures Entries(p.fns)[j] == (p.fns[j].name, FnsLen(p.fns[..j]))
    {
      FnAt(p.fns, p.consts, [], j);
    }
    FirstEntry(Entries(p.fns), name, i);
  }

  lemma ProgramFnLinked(p: Program, name: string)
    requires WfProgram(p)
    ensures FnLinked(LinkedProgram(p), name)
  {
    hide FnsCells, FnCells, SlotsOf, FrameNeed, MaxFrame, CoversStmts, WfFn, HasCells, StmtsCells, FindFn, FindEntry,
         FnsLen, Entries, PoolOf, CellBytes;
    var l := LinkedProgram(p);
    if FindFn(p.fns, name).Some? {
      FirstFn(p.fns, name);
      var i :| 0 <= i < |p.fns| && IsFirst(p.fns, name, i);
      EntryOfFn(p, name, i);
      CodeHasFn(p, i);
      BodyCovered(p, i);
      WfDistinct(p, p.fns[i]);
      ParamsAreSlots(p.consts, p.fns[i]);
      FrameBound(p.consts, p.fns, i);
    }
  }

  lemma WfDistinct(p: Program, f: FnDef)
    requires WfFn(p, f)
    ensures Distinct(f.params)
  {
  }

  /** Resource limits of a run: addresses and string tags fit, and the stack holds `depth` + 1 frames. */
  ghost predicate Fits(p: Program, cap: nat, depth: nat) {
    var im := ProgramImage(p);
    && |im.code| < 0x1_0000_0000 && |im.pool| <= 0x8000
    && StackNeed(MaxFrame(p.consts, p.fns), depth) <= cap < 0x8000_0000
    && depth <= VM_DEPTH
  }

  lemma ProgramIsLinked(p: Program)
    requires WfProgram(p)
    requires |ProgramImage(p).code| < 0x1_0000_0000 && |ProgramImage(p).pool| <= 0x8000
    ensures ValidLinked(LinkedProgram(p))
  {
    hide ProgramImage, FnLinked;
    forall name
      ensures FnLinked(LinkedProgram(p), name)
    {
      ProgramFnLinked(p, name);
    }
  }

  /** Main theorem. If the source program finishes with `out`, every run of its compiled image with
      enough stack and a large enough step budget finishes, and has printed exactly `out`. */
  lemma CompilerCorrect(p: Program, cap: nat, depth: nat, fuel: nat)
    returns (steps: nat)
    requires WfProgram(p) && Fits(p, cap, depth)
    requires RunMain(p, depth, fuel).Some?
    ensures var im := ProgramImage(p);
            forall budget :: budget > steps ==>
              var r := RunFrom(Machine(im.code, im.pool), InitState(cap, im.entry), budget);
              r.Finished? && r.st.out == RunMain(p, depth, fuel).value
  {
    hide Step, ProgramImage, CallFn, RunFrom;
    var l := LinkedProgram(p);
    var im := ProgramImage(p);
    ProgramIsLinked(p);
    assert FnLinked(l, "main");
    EntryOfMain(p);
    var st := InitState(cap, im.entry);
    var st1;
    steps, st1 := SimFn(l, "main", [], st, depth, fuel);
    RetAtBottom(l.m, st1);
    forall budget | budget > steps
      ensures var r := RunFrom(l.m, st, budget);
              r.Finished? && r.st.out == RunMain(p, depth, fuel).value
    {
      RunOfSteps(l.m, st, steps, st1, budget);
    }
  }

  lemma EntryOfMain(p: Program)
    requires FnLinked(LinkedProgram(p), "main") && FindFn(p.fns, "main").Some?
    ensures ProgramImage(p).entry == EntryAddr(Entries(p.fns), "main")
  {
    hide FnsCells, PoolOf, Entries;
  }

  /** `ret` with no frame left stops the machine. */
  lemma RetAtBottom(m: Machine, st: State)
    requires st.pc < |m.code| && Decode(m.code, st.pc) == IRet && st.frames == []
    ensures Step(m, st).Stop? && Step(m, st).st.out == st.out
  {
  }
}
