/** Where the pdf program can be, and why every one of its executions is one that the
    pipeline handles. */
module PdfShape {
  import opened Words
  import opened Pipeline
  import opened Sequential
  import opened Refinement
  import opened Runs
  import opened Isa
  import opened IsaRuns
  import opened PdfCode
  import Alu
  import Conformance
  import CU = ControlUnit

  function Pc(base: Word, i: nat): int {
    base + 4 * i
  }

  predicate Placed(base: Word) {
    base % 4 == 0 && Pc(base, LENGTH) <= TWO_32
  }

  /** The instruction memory holds the program's image at base. */
  ghost predicate Loaded(prog: Program, base: Word) {
    Placed(base) && forall i: nat :: i < LENGTH ==> prog(Wrap(Pc(base, i))) == Image(i)
  }

  function Asm(base: Word): Assembly {
    (pc: Word) => if base <= pc && (pc - base) % 4 == 0 then Code((pc - base) / 4) else Code(LENGTH)
  }

  /** In state x instruction i is next; inside a subroutine, ra is a return address into main. */
  predicate Reached(base: Word, x: Arch, i: nat) {
    && i < LENGTH && x.pc == Pc(base, i) && x.regs[0] == 0
    && (i >= INIT ==> x.regs[RA] == Pc(base, 1) || x.regs[RA] == Pc(base, 2) || x.regs[RA] == Pc(base, 3))
  }

  /** Instruction j can come after instruction i. */
  predicate Follows(i: nat, j: nat) {
    match i
    case 0 => j == INIT
    case 1 => j == BUILD
    case 2 => j == DISPLAY
    case 3 => j == DISPLAY_CALL
    case 7 => j == 8 || j == INIT_LOOP
    case 20 => j == 21 || j == BUILD_LOOP
    case 26 => j == 27 || j == 24
    case 8 => 1 <= j <= 3
    case 21 => 1 <= j <= 3
    case 27 => 1 <= j <= 3
    case _ => j == i + 1
  }

  lemma AsmAt(base: Word, i: nat)
    requires Placed(base) && i < LENGTH
    ensures 0 <= Pc(base, i) < TWO_32 && Asm(base)(Pc(base, i)) == Code(i)
  {
    assert Pc(base, i) - base == 4 * i;
  }

  lemma StepIsExec(base: Word, x: Arch, i: nat)
    requires Placed(base) && Reached(base, x, i)
    ensures InRange(Code(i), x) && IsaStep(Asm(base), x) == Exec(Code(i), x)
  {
    AsmAt(base, i);
  }

  function Dest(c: Instr): Reg {
    if c.Branch? || c.Store? then 0 else c.rd
  }

  /** What an instruction does to the PC, to ra and to memory. */
  lemma ExecShape(c: Instr, x: Arch)
    requires InRange(c, x)
    ensures var y := Exec(c, x);
      && (Dest(c) != RA ==> y.regs[RA] == x.regs[RA])
      && (!c.Store? ==> y.mem == x.mem)
      && (!c.Jal? && !c.Jalr? && !c.Branch? ==> y.pc == Wrap(x.pc + 4))
      && (c.Jal? ==> y.pc == Wrap(x.pc + c.offset) && (c.rd == RA ==> y.regs[RA] == Wrap(x.pc + 4)))
      && (c.Jalr? ==> var t := Wrap(X(x, c.rs1) + c.offset); y.pc == Wrap(t - t % 2))
      && (c.Branch? ==> y.pc == Wrap(x.pc + 4) || y.pc == Wrap(x.pc + c.offset))
  {
    hide Isa.Value, LoadValue, PutBytes, DataAddress, Wrap, Decides;
    WrapTwice(x.pc + 4);
  }

  lemma WrapTwice(x: int)
    ensures Wrap(Wrap(x)) == Wrap(x)
  {
  }

  /** One step goes from an instruction to one that follows it; only the two SB
      instructions write memory. */
  lemma ShapeStep(base: Word, x: Arch, i: nat) returns (j: nat)
    requires Placed(base) && Reached(base, x, i)
    ensures Reached(base, IsaStep(Asm(base), x), j) && Follows(i, j)
    ensures i != 6 && i != 18 ==> IsaStep(Asm(base), x).mem == x.mem
  {
    hide Exec, IsaStep, Asm, Wrap;
    StepIsExec(base, x, i);
    ExecShape(Code(i), x);
    ZeroKept(Code(i), x);
    PcCases(base, x, i);
    j := IndexAfter(base, x.regs[RA], i, Exec(Code(i), x).pc);
  }

  function IndexAfter(base: Word, ra: Word, i: nat, pc: Word): nat
    requires i < LENGTH
  {
    if i == 0 then INIT else if i == 1 then BUILD else if i == 2 then DISPLAY else if i == 3 then DISPLAY_CALL
    else if i == 8 || i == 21 || i == 27 then (if ra == Pc(base, 1) then 1 else if ra == Pc(base, 2) then 2 else 3)
    else if pc == Pc(base, i + 1) then i + 1
    else if i == 7 then INIT_LOOP else if i == 20 then BUILD_LOOP else 24
  }

  lemma PcCases(base: Word, x: Arch, i: nat)
    requires Placed(base) && Reached(base, x, i)
    ensures i < 27 ==> Wrap(x.pc + 4) == Pc(base, i + 1)
    ensures i == 0 ==> Wrap(x.pc + 16) == Pc(base, 4)
    ensures i == 1 ==> Wrap(x.pc + 32) == Pc(base, 9)
    ensures i == 2 ==> Wrap(x.pc + 80) == Pc(base, 22)
    ensures i == 3 ==> Wrap(x.pc - 4) == Pc(base, 2)
    ensures i == 7 ==> Wrap(x.pc - 8) == Pc(base, 5)
    ensures i == 20 ==> Wrap(x.pc - 28) == Pc(base, 13)
    ensures i == 26 ==> Wrap(x.pc - 8) == Pc(base, 24)
    ensures i >= INIT ==>
      x.regs[RA] % 2 == 0 && Wrap(x.regs[RA] + 0) == x.regs[RA] == Wrap(x.regs[RA] - 0)
  {
    hide Wrap;
    if i < 27 { WrapSmall(Pc(base, i + 1)); }
    WrapSmall(Pc(base, 2));
    WrapSmall(Pc(base, 4));
    WrapSmall(Pc(base, 5));
    WrapSmall(Pc(base, 9));
    WrapSmall(Pc(base, 13));
    WrapSmall(Pc(base, 22));
    WrapSmall(Pc(base, 24));
    WrapSmall(x.regs[RA]);
    EvenPc(base, 1);
    EvenPc(base, 2);
    EvenPc(base, 3);
  }

  lemma EvenPc(base: Word, i: nat)
    requires base % 4 == 0
    ensures Pc(base, i) % 2 == 0
  {
    QuotientUnique(Pc(base, i), 2, 2 * (base / 4) + 2 * i, 0);
  }

  lemma ReachedReady(prog: Program, base: Word, x: Arch, i: nat)
    requires Loaded(prog, base) && Reached(base, x, i)
    ensures Ready(prog, Asm(base), x)
  {
    hide Encode, Image, Code, Asm, Exec, WellFormed, InRange, Conformance.Supported;
    AsmAt(base, i);
    StepIsExec(base, x, i);
    ImageEncodes(i);
    PcCases(base, x, i);
    assert prog(Wrap(Pc(base, i))) == Image(i);
    CodeSupported(base, x, i);
  }

  lemma CodeSupported(base: Word, x: Arch, i: nat)
    requires Placed(base) && Reached(base, x, i)
    ensures Conformance.Supported(Code(i), x)
  {
    PcCases(base, x, i);
  }

  lemma {:induction false} ShapeRun(base: Word, x: Arch, i: nat, n: nat) returns (j: nat)
    requires Placed(base) && Reached(base, x, i)
    ensures Reached(base, IsaRun(Asm(base), x, n), j)
  {
    hide IsaStep, Reached, Asm;
    j := i;
    if n > 0 {
      j := ShapeRun(base, x, i, n - 1);
      j := ShapeStep(base, IsaRun(Asm(base), x, n - 1), j);
    }
  }

  lemma ShapeReady(prog: Program, base: Word, x: Arch, i: nat, n: nat)
    requires Loaded(prog, base) && Reached(base, x, i)
    ensures AllReady(prog, Asm(base), x, n)
  {
    hide IsaStep, IsaRun, Reached, Asm, Ready;
    forall k: nat | k < n
      ensures Ready(prog, Asm(base), IsaRun(Asm(base), x, k))
    {
      var j := ShapeRun(base, x, i, k);
      ReachedReady(prog, base, IsaRun(Asm(base), x, k), j);
    }
  }

  // ------------------------------------------------------------------ spacing

  /** What the spacing conditions ask about the instruction at a reached state. */
  lemma InsnFacts(prog: Program, base: Word, x: Arch, i: nat)
    requires Loaded(prog, base) && Reached(base, x, i)
    ensures var n := At(prog, x);
      && n.e.memRead == Code(i).Load? && n.e.jump == Code(i).Jalr? && n.e.op != CU.OP_AUIPC
      && (n.e.jump ==> n.e.rs1 == RA)
      && (n.e.regWrite && n.e.rd == RA ==> i <= 2)
      && (n.branches ==> Code(i).Jal? || Code(i).Jalr? || Code(i).Branch?)
  {
    hide Encode, Image, At, Redirects;
    AsmAt(base, i);
    PcCases(base, x, i);
    WrapSmall(Pc(base, i));
    ImageEncodes(i);
    assert prog(Wrap(Pc(base, i))) == Image(i);
    Conformance.DecodedAt(prog, x, Code(i));
    BranchesOnlyBy(Code(i), prog, x);
  }

  lemma BranchesOnlyBy(c: Instr, prog: Program, x: Arch)
    requires WellFormed(c) && Conformance.Decoded(c, x, At(prog, x).e)
    ensures At(prog, x).branches ==> c.Jal? || c.Jalr? || c.Branch?
  {
    hide Alu.FlagsOf, Decode, Execute, LoadData;
  }

  lemma SpacedHere(prog: Program, base: Word, h: History, x: Arch, y: Arch, z: Arch, i: nat, j: nat, k: nat, n: nat)
    requires Loaded(prog, base) && IsHistory(prog, h)
    requires h(n).before == x && h(n + 1).before == y && h(n + 2).before == z
    requires Reached(base, x, i) && Reached(base, y, j) && Reached(base, z, k)
    requires Follows(i, j) && Follows(j, k)
    ensures AuipcSpaced(h, n) && LoadSpaced(h, n)
    ensures WritesTo(h(n), RA) ==> !(h(n + 1).branches && h(n + 1).e.jump) && !(h(n + 2).branches && h(n + 2).e.jump)
    ensures h(n).e.jump ==> h(n).e.rs1 == RA
  {
    hide At, Alu.FlagsOf, Decode, Execute, Redirects, LoadData, StoreData, Loaded, Reached;
    assert Linked(prog, h, n) && Linked(prog, h, n + 1) && Linked(prog, h, n + 2);
    InsnFacts(prog, base, x, i);
    InsnFacts(prog, base, y, j);
    InsnFacts(prog, base, z, k);
    StageFields(prog, h, n);
  }

  /** From a reached state, the next three states of the sequential execution are reached
      too, each following the one before. */
  lemma ThreeReached(prog: Program, base: Word, x: Arch, i: nat, n: nat) returns (j: nat, k: nat, l: nat)
    requires Loaded(prog, base) && Reached(base, x, i)
    ensures Reached(base, Seq(prog, x, n), j) && Reached(base, Seq(prog, x, n + 1), k)
      && Reached(base, Seq(prog, x, n + 2), l)
    ensures Follows(j, k) && Follows(k, l)
  {
    hide IsaStep, Reached, Asm, Seq, Loaded, AllReady;
    assert Placed(base) by { LoadedPlaced(prog, base); }
    ReachedZero(base, x, i);
    ShapeReady(prog, base, x, i, n + 2);
    AllReadyPrefix(prog, base, x, n);
    SeqIsIsa(prog, Asm(base), x, n);
    SeqIsIsa(prog, Asm(base), x, n + 1);
    SeqIsIsa(prog, Asm(base), x, n + 2);
    j := ShapeRun(base, x, i, n);
    k := ShapeStep(base, IsaRun(Asm(base), x, n), j);
    l := ShapeStep(base, IsaRun(Asm(base), x, n + 1), k);
  }

  lemma LoadedPlaced(prog: Program, base: Word)
    requires Loaded(prog, base)
    ensures Placed(base)
  {
  }

  lemma ReachedZero(base: Word, x: Arch, i: nat)
    requires Reached(base, x, i)
    ensures x.regs[0] == 0
  {
  }

  lemma AllReadyPrefix(prog: Program, base: Word, x: Arch, n: nat)
    requires AllReady(prog, Asm(base), x, n + 2)
    ensures AllReady(prog, Asm(base), x, n) && AllReady(prog, Asm(base), x, n + 1)
  {
  }

  /** Every execution of the program meets the pipeline's spacing conditions. */
  lemma PdfWellSpaced(prog: Program, base: Word, x: Arch, i: nat)
    requires Loaded(prog, base) && Reached(base, x, i)
    ensures WellSpaced(prog, x)
  {
    hide Reached, Seq, Loaded, Follows, AuipcSpaced, LoadSpaced, WritesTo, IsHistory, At;
    var h := HistoryOf(prog, x);
    HistoryOfIsHistory(prog, x);
    forall n: nat
      ensures Spaced(h, n)
    {
      SpacedFrom(prog, base, x, i, n);
      if n >= 1 { SpacedFrom(prog, base, x, i, n - 1); }
      if n >= 2 { SpacedFrom(prog, base, x, i, n - 2); }
    }
  }

  lemma SpacedFrom(prog: Program, base: Word, x: Arch, i: nat, n: nat)
    requires Loaded(prog, base) && Reached(base, x, i)
    ensures var h := HistoryOf(prog, x);
      && AuipcSpaced(h, n) && LoadSpaced(h, n)
      && (WritesTo(h(n), RA) ==> !(h(n + 1).branches && h(n + 1).e.jump) && !(h(n + 2).branches && h(n + 2).e.jump))
      && (h(n).e.jump ==> h(n).e.rs1 == RA)
  {
    hide Reached, Seq, Loaded, Follows, AuipcSpaced, LoadSpaced, WritesTo, IsHistory, HistoryOf;
    var h := HistoryOf(prog, x);
    HistoryOfIsHistory(prog, x);
    var j, k, l := ThreeReached(prog, base, x, i, n);
    HistoryBefore(prog, x, n);
    HistoryBefore(prog, x, n + 1);
    HistoryBefore(prog, x, n + 2);
    SpacedHere(prog, base, h, Seq(prog, x, n), Seq(prog, x, n + 1), Seq(prog, x, n + 2), j, k, l, n);
  }
}
