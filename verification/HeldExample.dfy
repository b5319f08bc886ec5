/** A program that holds its address: the load that Counterexamples shows to go wrong when
    nothing prepares it, preceded by two computations of its address. */
module HeldExample {
  import opened Words
  import opened DataMemory
  import opened Pipeline
  import opened Sequential
  import opened Refinement
  import opened Runs
  import opened System
  import opened Held
  import opened Isa
  import Cache
  import Conformance
  import C = Counterexamples
  import CU = ControlUnit

  /** ADDI x1, x0, 4; ADDI x1, x0, 4; LW x2, 0(x1). */
  function Twice(addi: Word, lw: Word): Program {
    (pc: Word) => if pc == 0 || pc == 4 then addi else if pc == 8 then lw else 0
  }

  ghost predicate Listed(prog: Program) {
    && (forall pc: Word :: pc == 0 || pc == 4 ==> prog(pc) == Encode(OpImm(ADD, 1, 0, 4)))
    && prog(8) == Encode(Load(LW, 2, 1, 0))
    && (forall pc: Word :: pc != 0 && pc != 4 && pc != 8 ==> prog(pc) == 0)
  }

  lemma TwiceListed()
    ensures Listed(Twice(Encode(OpImm(ADD, 1, 0, 4)), Encode(Load(LW, 2, 1, 0))))
  {
    hide Encode;
  }

  /** One instruction of the program, wherever the execution is. */
  lemma OneInstruction(prog: Program, h: History, n: nat)
    requires IsHistory(prog, h) && Listed(prog) && h(n).before.regs[0] == 0
    ensures var pc := h(n).before.pc;
      && !h(n).branches && h(n).e.op != CU.OP_AUIPC && !h(n).m.memWrite && h(n).m.memRead == (pc == 8)
      && (pc == 0 || pc == 4 ==> Computes(h(n)) && h(n).m.rd == 1 && h(n).m.aluResult == 4)
      && (pc == 8 ==> h(n).m.aluResult == h(n).before.regs[1] && h(n).e.rd == 2 && h(n).e.funct3 == 2)
  {
    hide Encode, At, Execute, Redirects, Conformance.Decoded, Decode, IsHistory;
    var x := h(n).before;
    C.InstrAt(prog, h, n);
    StageFields(prog, h, n);
    LinkedStages(prog, h, n);
    if x.pc == 0 || x.pc == 4 {
      Conformance.DecodedAt(prog, x, OpImm(ADD, 1, 0, 4));
      C.AddiDecoded(OpImm(ADD, 1, 0, 4), x, h(n).e);
      assert Execute(h(n).e, h(n).e.rd1, h(n).e.rd2).aluResult == 4;
    } else if x.pc == 8 {
      Conformance.DecodedAt(prog, x, Load(LW, 2, 1, 0));
      C.LoadDecoded(Load(LW, 2, 1, 0), x, h(n).e);
      assert Execute(h(n).e, h(n).e.rd1, h(n).e.rd2).aluResult == Wrap(x.regs[1] + 0);
    } else {
      DecoderFacts(h(n).d, x.regs[CU.Rs1(h(n).d.instr)], x.regs[CU.Rs2(h(n).d.instr)]);
      NoRedirect(h(n).e, h(n).e.rd1, h(n).e.rd2);
    }
  }

  lemma {:induction false} StraightLine(prog: Program, h: History, n: nat)
    requires IsHistory(prog, h) && Listed(prog) && h(0).before.pc == 0 && h(0).before.regs[0] == 0
    ensures h(n).before.pc == Wrap(4 * n) && h(n).before.regs[0] == 0
  {
    hide IsHistory, Listed, WriteRegister;
    if n > 0 {
      StraightLine(prog, h, n - 1);
      OneInstruction(prog, h, n - 1);
      LinkedRegs(prog, h, n - 1);
      C.WriteZero(h(n - 1).before.regs, h(n - 1).w);
      NextFour(4 * (n - 1));
    }
  }

  lemma NextFour(x: nat)
    ensures Wrap(Wrap(x) + 4) == Wrap(x + 4)
  {
  }

  /** The spacing and the holding of instruction n. */
  lemma SpacedAndHeld(prog: Program, h: History, n: nat)
    requires IsHistory(prog, h) && Listed(prog) && h(0).before.pc == 0 && h(0).before.regs[0] == 0
    ensures Spaced(h, n) && HeldSpaced(h, n)
  {
    hide IsHistory, Listed, Computes;
    StraightLine(prog, h, n);
    StraightLine(prog, h, n + 1);
    OneInstruction(prog, h, n);
    OneInstruction(prog, h, n + 1);
    StageFields(prog, h, n);
    StageFields(prog, h, n + 1);
    if h(n).m.memRead {
      HeldHere(prog, h, n);
    }
  }

  /** The load finds its address computed twice. */
  lemma HeldHere(prog: Program, h: History, n: nat)
    requires IsHistory(prog, h) && Listed(prog) && h(0).before.pc == 0 && h(0).before.regs[0] == 0
    requires h(n).before.pc == 8
    ensures n >= 2 && Computes(h(n - 1)) && Computes(h(n - 2)) && h(n - 1).before.pc == 4 && h(n - 2).before.pc == 0
    ensures h(n).m.aluResult == 4 && h(n - 1).m.aluResult == 4 && h(n - 2).m.aluResult == 4
    ensures HeldSpaced(h, n)
  {
    hide IsHistory, Listed, Computes, Wrap;
    StraightLine(prog, h, n);
    ThirdWord(n);
    StraightLine(prog, h, n - 1);
    StraightLine(prog, h, n - 2);
    OneInstruction(prog, h, n);
    OneInstruction(prog, h, n - 1);
    OneInstruction(prog, h, n - 2);
    ComputedWritten(prog, h, n - 1);
  }

  lemma ThirdWord(n: nat)
    requires Wrap(4 * n) == 8
    ensures n >= 2 && Wrap(4 * (n - 1)) == 4 && Wrap(4 * (n - 2)) == 0
  {
  }

  lemma TwiceIsHeld(prog: Program, mem: Memory)
    requires Listed(prog)
    ensures var a := ArchOf(PowerOn(0, mem).s); WellSpaced(prog, a) && WellHeld(prog, a)
  {
    hide Listed, PowerOn, HistoryOf, IsHistory, Spaced, HeldSpaced, AtReset;
    var a := ArchOf(PowerOn(0, mem).s);
    var h := HistoryOf(prog, a);
    C.StartFacts(prog, mem);
    forall n: nat
      ensures Spaced(h, n) && HeldSpaced(h, n)
    {
      SpacedAndHeld(prog, h, n);
    }
  }

  /** Switched on with any data, the complete machine loads the word at 4, and does so within
      a bounded number of cycles. */
  lemma LoadsItsWord(mem: Memory, n: nat)
    ensures var prog := Twice(Encode(OpImm(ADD, 1, 0, 4)), Encode(Load(LW, 2, 1, 0)));
      var y := PowerOn(0, mem);
      var s := After(prog, y, n).s;
      && Correct(prog, y, n)
      && (Committed(TagsAfter(prog, y, n)) == 3 ==> WriteRegister(s.regs, s.w)[2] == ReadWord(mem, 4))
  {
    hide Encode, Twice, PowerOn, After, TagsAfter, Correct, WellSpaced, WellHeld, HistoryOf, Seq, ReadWord, Committed,
         WriteRegister, AtReset;
    var prog, y := Twice(Encode(OpImm(ADD, 1, 0, 4)), Encode(Load(LW, 2, 1, 0))), PowerOn(0, mem);
    TwiceListed();
    TwiceIsHeld(prog, mem);
    C.StartFacts(prog, mem);
    PowerOnFacts(0, mem);
    HeldRefines(prog, y, n);
    ThirdLoads(prog, mem, 3);
  }

  lemma ThirdLoads(prog: Program, mem: Memory, n: nat)
    requires Listed(prog) && n == 3
    ensures Seq(prog, ArchOf(PowerOn(0, mem).s), n).regs[2] == ReadWord(mem, 4)
  {
    hide Listed, PowerOn, HistoryOf, IsHistory, Seq, ReadWord, Computes, HeldSpaced;
    var a := ArchOf(PowerOn(0, mem).s);
    var h := HistoryOf(prog, a);
    C.StartFacts(prog, mem);
    StraightLine(prog, h, n - 1);
    HeldHere(prog, h, n - 1);
    OneInstruction(prog, h, n - 1);
    StageFields(prog, h, n - 1);
    ComputedWritten(prog, h, n - 3);
    ComputedWritten(prog, h, n - 2);
    C.LoadsSequentially(prog, h, n - 1);
    HistoryBefore(prog, a, n);
  }
}
