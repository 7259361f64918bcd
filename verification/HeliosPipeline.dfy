/** Compiling and running a program with the emitter and the machine. */
module HeliosPipeline {
  import opened Bits
  import opened HeliosAst
  import opened Wrappers
  import opened HeliosSemantics
  import opened HeliosCode
  import opened HeliosVm
  import opened HeliosCorrect
  import opened HeliosDivergence
  import HeliosEmitter
  import HeliosMachine

  method Compile(p: Program) returns (image: Image)
    requires WfProgram(p)
    ensures image == ProgramImage(p)
  {
    var e := new HeliosEmitter.Emitter(p);
    image := e.EmitProgram(p.fns);
  }

  /**
   * What a compiled program shows, whatever its source does. If the source finishes with some fuel, the
   * run halts with exactly its text, or is cut off by the step limit with a part of it. And a run that is
   * not cut off means that the source has its final answer: that text, or none because it is stuck.
   */
  method CompileAndRun(p: Program, slots: nat, ghost depth: nat, ghost fuel: nat)
    returns (ending: HeliosMachine.Ending, out: seq<u8>)
    requires WfProgram(p) && Fits(p, slots, depth)
    ensures RunMain(p, depth, fuel).Some? && ending != HeliosMachine.Timeout ==>
              ending == HeliosMachine.Halted && out == RunMain(p, depth, fuel).value
    ensures RunMain(p, depth, fuel).Some? && ending == HeliosMachine.Timeout ==>
              out <= RunMain(p, depth, fuel).value
    ensures ending != HeliosMachine.Timeout ==>
              var answer := RunMain(p, depth, 50_000_000);
              && (forall f :: f >= 50_000_000 ==> RunMain(p, depth, f) == answer)
              && (answer.Some? ==> ending == HeliosMachine.Halted && out == answer.value)
    ensures (forall f: nat :: Starves(p, depth, f)) ==> ending == HeliosMachine.Timeout
  {
    hide RunMain, RunFrom, Fits, ProgramImage, Starves;
    var image := Compile(p);
    var vm := new HeliosMachine.Vm(image.code, image.pool, slots);
    ghost var m, st := Machine(image.code, image.pool), InitState(slots, image.entry);
    if RunMain(p, depth, fuel).Some? {
      ghost var steps := CompilerCorrect(p, slots, depth, fuel);
      ghost var enough := steps + VM_MAX_STEPS;
      assert RunFrom(m, st, enough).Finished?;
      CutShort(m, st, VM_MAX_STEPS - 1, enough);
    }
    if !RunFrom(m, st, VM_MAX_STEPS - 1).TimedOut? {
      StopsOnlyWithSource(p, slots, depth, VM_MAX_STEPS - 1);
    }
    if forall f: nat :: Starves(p, depth, f) {
      DivergenceKept(p, slots, depth, VM_MAX_STEPS - 1);
    }
    assert vm.State().(pc := image.entry) == st;
    var result;
    ending, result := vm.Run(image.entry);
    out := vm.out;
  }
}
