/** The reference machine: the same decode, execute, load, store and result logic
    applied to one whole instruction at a time. */
module Sequential {
  import opened Words
  import opened DataMemory
  import opened Pipeline
  import CU = ControlUnit

  datatype Arch = Arch(pc: Word, regs: Registers, mem: Memory)

  /** One executed instruction: the state before it, what each pipeline register
      would hold for it, and whether it leaves the straight-line path. */
  datatype Insn = Insn(before: Arch, d: RegD, e: RegE, m: RegM, w: RegW, branches: bool)

  function At(prog: Program, a: Arch): Insn {
    var d := Fetch(prog, a.pc);
    var e := Decode(d, a.regs[CU.Rs1(d.instr)], a.regs[CU.Rs2(d.instr)]);
    var m := Execute(e, e.rd1, e.rd2);
    Insn(a, d, e, m, Writeback(m, LoadData(m, a.mem)), Redirects(e, e.rd1, e.rd2))
  }

  /** The state an instruction leaves behind. */
  function Outcome(i: Insn): Arch {
    Arch(if i.branches then Target(i.e) else Wrap(i.before.pc + 4),
         WriteRegister(i.before.regs, i.w),
         StoreData(i.m, i.before.mem))
  }

  function Next(prog: Program, a: Arch): Arch {
    Outcome(At(prog, a))
  }

  /** The state before instruction n of the sequential execution from a. */
  function Seq(prog: Program, a: Arch, n: nat): Arch {
    if n == 0 then a else Next(prog, Seq(prog, a, n - 1))
  }

  // The execution as a history, for proofs that need only how its entries relate.

  type History = nat -> Insn

  predicate Linked(prog: Program, h: History, n: nat) {
    h(n) == At(prog, h(n).before) && h(n + 1).before == Outcome(h(n))
  }

  ghost predicate IsHistory(prog: Program, h: History) {
    forall n: nat :: Linked(prog, h, n)
  }

  function HistoryOf(prog: Program, a: Arch): History {
    (n: nat) => At(prog, Seq(prog, a, n))
  }

  lemma HistoryOfIsHistory(prog: Program, a: Arch)
    ensures IsHistory(prog, HistoryOf(prog, a))
  {
    var h := HistoryOf(prog, a);
    forall n: nat
      ensures Linked(prog, h, n)
    {
      AtBefore(prog, Seq(prog, a, n));
      AtBefore(prog, Seq(prog, a, n + 1));
    }
  }

  lemma AtBefore(prog: Program, a: Arch)
    ensures At(prog, a).before == a
  {
  }
}
