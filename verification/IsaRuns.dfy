/** Executions of RV32I programs, and the pipeline as an implementation of them. */
module IsaRuns {
  import opened Words
  import opened Pipeline
  import opened Sequential
  import opened Refinement
  import opened Runs
  import opened Isa
  import opened Conformance

  /** The instruction meant at each address. */
  type Assembly = Word -> Instr

  /** In state x the instruction memory holds the encoding of a supported instruction. */
  predicate Ready(prog: Program, asm: Assembly, x: Arch) {
    var i := asm(x.pc);
    WellFormed(i) && prog(x.pc) == Encode(i) && InRange(i, x) && Supported(i, x)
  }

  function IsaStep(asm: Assembly, x: Arch): Arch {
    if InRange(asm(x.pc), x) then Exec(asm(x.pc), x) else x
  }

  /** The RV32I state after n instructions. */
  function IsaRun(asm: Assembly, x: Arch, n: nat): Arch {
    if n == 0 then x else IsaStep(asm, IsaRun(asm, x, n - 1))
  }

  ghost predicate AllReady(prog: Program, asm: Assembly, x: Arch, n: nat) {
    forall k: nat :: k < n ==> Ready(prog, asm, IsaRun(asm, x, k))
  }

  lemma ZeroKept(i: Instr, x: Arch)
    requires InRange(i, x) && x.regs[0] == 0
    ensures Exec(i, x).regs[0] == 0
  {
    hide Value, LoadValue, PutBytes, Decides, Wrap, DataAddress;
  }

  lemma StepIsIsa(prog: Program, asm: Assembly, x: Arch)
    requires Ready(prog, asm, x) && x.regs[0] == 0
    ensures Next(prog, x) == IsaStep(asm, x) && IsaStep(asm, x).regs[0] == 0
  {
    hide Next, Exec, Encode, WellFormed, InRange, Supported;
    StepConformsIff(prog, x, asm(x.pc));
    ZeroKept(asm(x.pc), x);
  }

  /** The sequential machine executes RV32I as long as the instructions it meets are supported. */
  lemma {:induction false} SeqIsIsa(prog: Program, asm: Assembly, x: Arch, n: nat)
    requires AllReady(prog, asm, x, n) && x.regs[0] == 0
    ensures Seq(prog, x, n) == IsaRun(asm, x, n) && IsaRun(asm, x, n).regs[0] == 0
  {
    hide Next, IsaStep, Ready;
    if n > 0 {
      SeqIsIsa(prog, asm, x, n - 1);
      assert Ready(prog, asm, IsaRun(asm, x, n - 1));
      StepIsIsa(prog, asm, IsaRun(asm, x, n - 1));
    }
  }

  lemma {:induction false} RunAdd(asm: Assembly, x: Arch, m: nat, n: nat)
    ensures IsaRun(asm, IsaRun(asm, x, m), n) == IsaRun(asm, x, m + n)
  {
    hide IsaStep;
    if n > 0 {
      RunAdd(asm, x, m, n - 1);
    }
  }

  /** The pipeline implements RV32I: after the instructions that have reached W, its
      registers and data memory are those of the RV32I execution. */
  lemma PipelineRunsIsa(prog: Program, asm: Assembly, o: Config, cs: seq<Cached>)
    requires FromReset(o) && o.s.regs[0] == 0 && RunOk(prog, o, cs)
    requires AllReady(prog, asm, ArchOf(o.s), Committed(Run(prog, o, cs).t))
    ensures var p := Run(prog, o, cs);
      var x := IsaRun(asm, ArchOf(o.s), Committed(p.t));
      WriteRegister(p.s.regs, p.s.w) == x.regs && p.s.mem == x.mem
  {
    hide Run, RunOk, Seq, IsaRun, AllReady;
    Refines(prog, o, cs);
    SeqIsIsa(prog, asm, ArchOf(o.s), Committed(Run(prog, o, cs).t));
  }
}
