/** Reachable states in which each of the pipeline's conditions fails, so that none of
    them is vacuous: short programs on the complete machine, from the moment it is
    switched on and with its own cache. */
module Counterexamples {
  import opened Words
  import opened DataMemory
  import opened Pipeline
  import opened Sequential
  import opened Refinement
  import opened Runs
  import opened System
  import opened Isa
  import opened Encoding
  import Cache
  import Conformance
  import Alu
  import CU = ControlUnit

  /** Words at addresses 0, 4 and 12, nothing else. */
  function Small(first: Word, second: Word, fourth: Word): Program {
    (pc: Word) => if pc == 0 then first else if pc == 4 then second else if pc == 12 then fourth else 0
  }

  function Start(mem: Memory): System {
    PowerOn(0, mem)
  }

  /** Instruction 0 is in M, 1 in E and 2 in D. */
  predicate Filled(t: Tags) {
    t.m == Real(0) && t.e == Real(1) && t.d == Real(2) && t.w == Bubble && t.fetch == 3 && t.retired == 0
  }

  // ------------------------------------------------------- the first three cycles

  /** A cycle with bubbles in E and M is a normal one. */
  lemma BubbleCycle(prog: Program, h: History, s: State, c: Cached, t: Tags)
    requires Invariant(prog, h, s, t) && t.e == Bubble && t.m == Bubble
    ensures CycleOk(s, c) && Invariant(prog, h, Step(prog, s, c), NextTags(s, c, t))
    ensures NextTags(s, c, t) == Tags(t.fetch + 1, Real(t.fetch), t.d, Bubble, Bubble,
      t.retired + Refinement.Count(t.w))
  {
    hide ForwardsResult, SuccessorRight, PCSrcE, Step, HoldsE, HoldsD, HoldsArch;
    Idles(s, t);
    InertOperands(s);
    CycleKeeps(prog, h, s, c, t);
  }

  /** So is one with the first instruction in E, unless it redirects or feeds the second
      from memory. */
  lemma FirstInE(prog: Program, h: History, s: State, c: Cached, t: Tags)
    requires Invariant(prog, h, s, t) && t.m == Bubble && t.w == Bubble && t.e.Real?
    requires !h(t.e.n).branches && (h(t.e.n).e.memRead ==> !Names(h(t.e.n + 1), h(t.e.n).m.rd))
    ensures CycleOk(s, c) && Invariant(prog, h, Step(prog, s, c), NextTags(s, c, t))
    ensures NextTags(s, c, t) == Tags(t.fetch + 1, Real(t.fetch), t.d, t.e, Bubble, t.retired)
  {
    hide Step, Invariant, CycleOk, PCSrcE, LoadUseStall;
    FirstUndisturbed(prog, h, s, c, t);
    CycleKeeps(prog, h, s, c, t);
  }

  lemma FirstUndisturbed(prog: Program, h: History, s: State, c: Cached, t: Tags)
    requires Invariant(prog, h, s, t) && t.m == Bubble && t.e.Real?
    requires !h(t.e.n).branches && (h(t.e.n).e.memRead ==> !Names(h(t.e.n + 1), h(t.e.n).m.rd))
    ensures CycleOk(s, c) && !PCSrcE(s) && !LoadUseStall(s) && !Frozen(s, c)
  {
    hide Decode, Execute, Redirects, Target, LoadData, LoadDecode, WriteRegister, HoldsArch, HoldsW, HoldsM, Retire;
    var i := h(t.e.n);
    Idles(s, t);
    StageFields(prog, h, t.e.n);
    StageFields(prog, h, t.e.n + 1);
    LinkedStages(prog, h, t.e.n);
    LinkedStages(prog, h, t.e.n + 1);
    LinkedRegs(prog, h, t.e.n);
    OperandsFreshIff(prog, h, s, t);
    ExecuteByOperands(i.e, s.e.rd1, s.e.rd2, i.e.rd1, i.e.rd2);
    WriteInW(s, s.e.rs1, h(t.retired).before.regs);
    WriteInW(s, s.e.rs2, h(t.retired).before.regs);
  }

  /** One more correct cycle. */
  lemma Onwards(prog: Program, y: System, h: History, n: nat)
    requires Correct(prog, y, n)
    requires var z, t := After(prog, y, n), TagsAfter(prog, y, n);
      CycleOk(z.s, Drives(z)) && Invariant(prog, h, Step(prog, z.s, Drives(z)), NextTags(z.s, Drives(z), t))
    ensures Correct(prog, y, n + 1) && Invariant(prog, h, After(prog, y, n + 1).s, TagsAfter(prog, y, n + 1))
  {
    hide Step, Tick, NextTags, Invariant, CycleOk, After, TagsAfter, Drives, Correct;
    TickStep(prog, y, n);
    CorrectSoFar(prog, y, n + 1);
  }

  lemma BubbleTick(prog: Program, y: System, h: History, n: nat)
    requires Correct(prog, y, n) && Invariant(prog, h, After(prog, y, n).s, TagsAfter(prog, y, n))
    requires TagsAfter(prog, y, n).e == Bubble && TagsAfter(prog, y, n).m == Bubble
    ensures Correct(prog, y, n + 1) && Invariant(prog, h, After(prog, y, n + 1).s, TagsAfter(prog, y, n + 1))
    ensures var t := TagsAfter(prog, y, n);
      TagsAfter(prog, y, n + 1) == Tags(t.fetch + 1, Real(t.fetch), t.d, Bubble, Bubble,
        t.retired + Refinement.Count(t.w))
  {
    hide Step, Tick, NextTags, Invariant, CycleOk, After, TagsAfter, Drives, Correct;
    var z := After(prog, y, n);
    BubbleCycle(prog, h, z.s, Drives(z), TagsAfter(prog, y, n));
    Onwards(prog, y, h, n);
    TickStep(prog, y, n);
  }

  lemma FirstTick(prog: Program, y: System, h: History, n: nat) returns (a: Word, b: Word)
    requires Correct(prog, y, n) && Invariant(prog, h, After(prog, y, n).s, TagsAfter(prog, y, n))
    requires var t := TagsAfter(prog, y, n); t.m == Bubble && t.w == Bubble && t.e == Real(0)
    requires !h(0).branches && (h(0).e.memRead ==> !Names(h(1), h(0).m.rd))
    ensures Correct(prog, y, n + 1) && Invariant(prog, h, After(prog, y, n + 1).s, TagsAfter(prog, y, n + 1))
    ensures var t := TagsAfter(prog, y, n);
      TagsAfter(prog, y, n + 1) == Tags(t.fetch + 1, Real(t.fetch), t.d, t.e, Bubble, t.retired)
    ensures After(prog, y, n + 1).s.m == Execute(h(0).e, a, b)
  {
    hide Step, Tick, NextTags, Invariant, CycleOk, After, TagsAfter, Drives, Correct, Names, SrcA, WriteDataE;
    var z := After(prog, y, n);
    FirstInE(prog, h, z.s, Drives(z), TagsAfter(prog, y, n));
    Onwards(prog, y, h, n);
    TickStep(prog, y, n);
    a, b := SrcA(z.s), WriteDataE(z.s);
    FirstExecuted(prog, h, z.s, Drives(z), TagsAfter(prog, y, n));
  }

  lemma FirstExecuted(prog: Program, h: History, s: State, c: Cached, t: Tags)
    requires Invariant(prog, h, s, t) && t.m == Bubble && t.e.Real?
    ensures Step(prog, s, c).m == Execute(h(t.e.n).e, SrcA(s), WriteDataE(s))
  {
    hide SrcA, WriteDataE, Execute, Decode;
    Idles(s, t);
    ExecuteByOperands(h(t.e.n).e, s.e.rd1, s.e.rd2, SrcA(s), WriteDataE(s));
  }

  /** Three cycles fill M, E and D. */
  lemma ThreeCycles(prog: Program, y: System, h: History, n: nat) returns (a: Word, b: Word)
    requires AtReset(y.s) && h == HistoryOf(prog, ArchOf(y.s)) && n == 3
    requires !h(0).branches && (h(0).e.memRead ==> !Names(h(1), h(0).m.rd))
    ensures Correct(prog, y, n)
    ensures Invariant(prog, h, After(prog, y, n).s, TagsAfter(prog, y, n)) && Filled(TagsAfter(prog, y, n))
    ensures After(prog, y, n).s.m == Execute(h(0).e, a, b)
  {
    hide Invariant, After, TagsAfter, Names, AtReset, HistoryOf, Orderly, Correct;
    AtStart(prog, y, h, n - 3);
    BubbleTick(prog, y, h, n - 3);
    BubbleTick(prog, y, h, n - 2);
    a, b := FirstTick(prog, y, h, n - 1);
  }

  lemma AtStart(prog: Program, y: System, h: History, n: nat)
    requires AtReset(y.s) && h == HistoryOf(prog, ArchOf(y.s)) && n == 0
    ensures After(prog, y, n) == y && Correct(prog, y, n)
    ensures Invariant(prog, h, y.s, TagsAfter(prog, y, n))
    ensures TagsAfter(prog, y, n) == Tags(n, Bubble, Bubble, Bubble, Bubble, n)
  {
    hide Invariant, AtReset, HistoryOf, Orderly;
    StartInvariant(prog, y);
  }

  /** The instructions at addresses 0 and 4 as a history from address 0 has them. */
  lemma TwoInHistory(i: Instr, j: Instr, prog: Program, h: History)
    requires WellFormed(i) && WellFormed(j) && prog(0) == Encode(i) && prog(4) == Encode(j)
    requires IsHistory(prog, h) && h(0).before.pc == 0 && h(0).before.regs[0] == 0
    ensures Conformance.Decoded(i, h(0).before, h(0).e)
    ensures !h(0).branches ==> h(1).before.pc == 4 && Conformance.Decoded(j, h(1).before, h(1).e)
  {
    hide Encode, At, Intended, WellFormed;
    LinkedRegs(prog, h, 0);
    assert Linked(prog, h, 0) && Linked(prog, h, 1);
    Conformance.DecodedAt(prog, h(0).before, i);
    if !h(0).branches {
      Conformance.DecodedAt(prog, h(1).before, j);
    }
  }

  lemma StartFacts(prog: Program, mem: Memory)
    ensures var y := Start(mem);
      var h := HistoryOf(prog, ArchOf(y.s));
      && AtReset(y.s) && IsHistory(prog, h) && h(0).before == ArchOf(y.s)
      && y.s.pc == 0 && y.s.regs == seq(32, _ => 0) && y.s.mem == mem
  {
    hide At, Seq, IsHistory;
    var a := ArchOf(Start(mem).s);
    HistoryOfIsHistory(prog, a);
    HistoryBefore(prog, a, 0);
    SeqZero(prog, a);
  }

  lemma SmallFacts(first: Word, second: Word, fourth: Word)
    ensures var prog := Small(first, second, fourth);
      && prog(0) == first && prog(4) == second && prog(12) == fourth
      && forall pc: Word :: pc != 0 && pc != 4 && pc != 12 ==> prog(pc) == 0
  {
  }

  lemma SeqZero(prog: Program, a: Arch)
    ensures Seq(prog, a, 0) == a
  {
  }

  lemma StagesOf(prog: Program, h: History, n: nat)
    requires IsHistory(prog, h)
    ensures h(n).m == Execute(h(n).e, h(n).e.rd1, h(n).e.rd2)
    ensures h(n).branches == Redirects(h(n).e, h(n).e.rd1, h(n).e.rd2)
    ensures h(n).w.aluResult == h(n).m.aluResult && h(n).w.pcPlus4 == h(n).m.pcPlus4
      && h(n).w.resultSrc == h(n).m.resultSrc
    ensures h(n).w.rd == h(n).m.rd && h(n).w.regWrite == h(n).m.regWrite
    ensures h(n + 1).before.regs == WriteRegister(h(n).before.regs, h(n).w)
    ensures h(n + 1).before.pc == if h(n).branches then Target(h(n).e) else Wrap(h(n).before.pc + 4)
  {
    hide Execute, Redirects, Target, Decode, WriteRegister, LoadData, StoreData, Fetch;
    LinkedStages(prog, h, n);
    LinkedRegs(prog, h, n);
  }

  lemma InStages(prog: Program, h: History, s: State, t: Tags)
    requires Invariant(prog, h, s, t) && Filled(t)
    ensures !s.w.regWrite
    ensures s.e == h(1).e.(rd1 := h(0).before.regs[h(1).e.rs1], rd2 := h(0).before.regs[h(1).e.rs2])
  {
  }

  // ------------------------------------------------------- decoded instructions

  /** AUIPC x1, 0 at address 0. */
  lemma AuipcDecoded(a: Arch, e: RegE)
    requires Conformance.Decoded(Auipc(1, 0), a, e) && a.pc == 0
    ensures e.pcPlus4 == 4 && e.resultSrc == 2 && e.rd == 1 && e.regWrite && Execute(e, e.rd1, e.rd2).pcPlus4 == 4
    ensures !e.memRead && !Redirects(e, e.rd1, e.rd2)
    ensures forall x: Word, z: Word :: Execute(e, x, z).aluResult == 0
  {
    hide Alu.FlagsOf;
  }

  /** The ALU adds k to the first operand. */
  ghost predicate AddsTo(e: RegE, k: int) {
    forall x: Word, z: Word :: Execute(e, x, z).aluResult == Wrap(x + k)
  }

  lemma AddiDecoded(i: Instr, a: Arch, e: RegE)
    requires i.OpImm? && i.op == ADD && 0 <= i.imm < 0x800 && WellFormed(i) && Conformance.Decoded(i, a, e)
    ensures e.rs1 == i.rs1 && !e.memRead && !e.memWrite && !Redirects(e, e.rd1, e.rd2) && e.op == CU.OP_IMM
    ensures e.regWrite && e.resultSrc == 0 && e.rd == i.rd && e.rd1 == a.regs[i.rs1]
    ensures AddsTo(e, i.imm)
  {
    hide Alu.FlagsOf;
  }

  lemma JalrDecoded(i: Instr, a: Arch, e: RegE)
    requires i.Jalr? && WellFormed(i) && Conformance.Decoded(i, a, e)
    ensures e.op == 0x67 && e.jump && e.rs1 == i.rs1 && e.immExt == Wrap(i.offset) && e.rd1 == a.regs[i.rs1]
  {
  }

  lemma LoadDecoded(i: Instr, a: Arch, e: RegE)
    requires i.Load? && i.offset >= 0 && WellFormed(i) && Conformance.Decoded(i, a, e)
    ensures e.memRead && e.regWrite && e.rd == i.rd && e.rs1 == i.rs1 && e.rd1 == a.regs[i.rs1]
    ensures !Redirects(e, e.rd1, e.rd2) && e.funct3 == LoadFunct3(i.lop)
    ensures AddsTo(e, i.offset)
  {
    hide Alu.FlagsOf;
  }

  lemma BeqDecoded(i: Instr, a: Arch, e: RegE)
    requires i.Branch? && i.bop == BEQ && i.rs1 == i.rs2 == 0 && WellFormed(i) && Conformance.Decoded(i, a, e)
    ensures e.rs1 == 0 && e.rs2 == 0 && Redirects(e, e.rd1, e.rd2) && Target(e) == Wrap(a.pc + Wrap(i.offset))
    ensures !e.regWrite && !e.memWrite && !e.memRead
  {
  }

  // ---------------------------------------------------------- ForwardsResult fails

  /** AUIPC x1, 0; ADDI x2, x1, 0: the consumer is given 0, AUIPC's ALU result, where
      the machine's own result for AUIPC is PC + 4. */
  lemma AuipcForwardsImmediate(mem: Memory)
    ensures var prog := Small(Encode(Auipc(1, 0)), Encode(OpImm(ADD, 2, 1, 0)), 0);
      var s := After(prog, Start(mem), 3).s;
      && Correct(prog, Start(mem), 3) && !ForwardsResult(s)
      && SrcA(s) == 0 && Seq(prog, ArchOf(Start(mem).s), 1).regs[1] == 4
  {
    hide Encode, After, TagsAfter, Correct, Seq, Start, Invariant, At, IsHistory, Execute, Redirects, Small,
         Conformance.Decoded, ForwardsResult, SrcA, AddsTo;
    var i, j := Auipc(1, 0), OpImm(ADD, 2, 1, 0);
    var prog, y := Small(Encode(i), Encode(j), 0), Start(mem);
    var h := HistoryOf(prog, ArchOf(y.s));
    SmallFacts(Encode(i), Encode(j), 0);
    StartFacts(prog, mem);
    TwoInHistory(i, j, prog, h);
    StagesOf(prog, h, 0);
    AuipcDecoded(h(0).before, h(0).e);
    AddiDecoded(j, h(1).before, h(1).e);
    StageFields(prog, h, 0);
    var a, b := ThreeCycles(prog, y, h, 3);
    InStages(prog, h, After(prog, y, 3).s, TagsAfter(prog, y, 3));
    ImmediateForwarded(After(prog, y, 3).s, h(0).e, h(1).e, a, b);
    HistoryBefore(prog, ArchOf(y.s), 1);
  }

  lemma ImmediateForwarded(s: State, e: RegE, f: RegE, a: Word, b: Word)
    requires s.m == Execute(e, a, b) && e.regWrite && e.rd == 1 && e.resultSrc == 2 && e.pcPlus4 == 4
    requires s.m.aluResult == 0 && !e.memRead
    requires s.e == f.(rd1 := s.e.rd1, rd2 := s.e.rd2) && f.rs1 == 1 && f.regWrite && f.rd == 2 && f.resultSrc == 0
    requires AddsTo(f, 0)
    ensures SrcA(s) == 0 && !ForwardsResult(s)
  {
    hide Redirects, Alu.Result;
    ExecuteByOperands(f, s.e.rd1, s.e.rd2, SrcA(s), WriteDataE(s));
    ExecuteByOperands(f, s.e.rd1, s.e.rd2, NewestA(s), NewestB(s));
    assert SrcA(s) == 0 && NewestA(s) == 4;
    assert Execute(f, SrcA(s), WriteDataE(s)).aluResult == 0;
    assert Execute(f, NewestA(s), NewestB(s)).aluResult == 4;
    assert UsesResult(Execute(f, NewestA(s), NewestB(s)));
  }

  // ---------------------------------------------------------- SuccessorRight fails

  /** ADDI x1, x0, 8; JALR x0, 0(x1): the jump goes to 0, the stale x1, not to 8. */
  lemma JalrUsesStaleBase(mem: Memory)
    ensures var prog := Small(Encode(OpImm(ADD, 1, 0, 8)), Encode(Jalr(0, 1, 0)), 0);
      var s := After(prog, Start(mem), 3).s;
      && Correct(prog, Start(mem), 3) && PCSrcE(s) && !SuccessorRight(s)
      && Target(s.e) == 0 && Seq(prog, ArchOf(Start(mem).s), 2).pc == 8
  {
    hide Encode, After, TagsAfter, Correct, Seq, Start, Invariant, At, IsHistory, Execute, Redirects, Small,
         Conformance.Decoded, SuccessorRight, PCSrcE, Target;
    var i, j := OpImm(ADD, 1, 0, 8), Jalr(0, 1, 0);
    var prog, y := Small(Encode(i), Encode(j), 0), Start(mem);
    var h := HistoryOf(prog, ArchOf(y.s));
    SmallFacts(Encode(i), Encode(j), 0);
    StartFacts(prog, mem);
    TwoInHistory(i, j, prog, h);
    StagesOf(prog, h, 0);
    StagesOf(prog, h, 1);
    AddiDecoded(i, h(0).before, h(0).e);
    JalrDecoded(j, h(1).before, h(1).e);
    StageFields(prog, h, 0);
    var a, b := ThreeCycles(prog, y, h, 3);
    var s := After(prog, y, 3).s;
    InStages(prog, h, s, TagsAfter(prog, y, 3));
    FirstWrites(prog, h, s, TagsAfter(prog, y, 3));
    JalrFollowsWriter(s, h(1).e);
    HistoryBefore(prog, ArchOf(y.s), 2);
  }

  lemma FirstWrites(prog: Program, h: History, s: State, t: Tags)
    requires Invariant(prog, h, s, t) && Filled(t)
    ensures s.m.rd == h(0).m.rd && s.m.regWrite == h(0).m.regWrite && s.m.resultSrc == h(0).m.resultSrc
    ensures UsesResult(h(0).m) ==> s.m.aluResult == h(0).m.aluResult
    ensures s.m.memRead == h(0).m.memRead && s.m.memWrite == h(0).m.memWrite && s.m.funct3 == h(0).m.funct3
  {
  }

  lemma JalrFollowsWriter(s: State, e: RegE)
    requires s.m.regWrite && s.m.rd == 1 && s.m.aluResult == 8 && s.m.resultSrc == 0
    requires e.op == 0x67 && e.jump && e.rs1 == 1 && e.immExt == 0 && e.rd1 == 8
    requires s.e.rd1 == 0 && s.e == e.(rd1 := s.e.rd1, rd2 := s.e.rd2)
    ensures PCSrcE(s) && !SuccessorRight(s) && Target(s.e) == 0
    ensures Target(e) == 8 && Redirects(e, e.rd1, e.rd2)
  {
    hide Alu.FlagsOf;
  }

  // ------------------------------------------------------------- DataCurrent fails

  /** The cache of a load that finds it as switched on, with another word registered: after
      three waits it holds the load's line and hits. */
  lemma ColdMiss(c: Cache.CacheState, p: Cache.Port)
    requires Cache.AllInvalid(c.lines) && !c.hit && !Cache.Holds(c, p.a)
    requires p.memRead && p.we == Cache.NO_LANES
    ensures var c1 := Cache.Edge(c, p);
      var c2 := Cache.Edge(c1, p);
      var c3 := Cache.Edge(c2, p);
      && !c1.hit && !c2.hit && c3.hit && Cache.Present(c3) && Cache.Holds(c3, p.a) && Cache.Read(c3) == p.found
  {
  }

  /** One frozen cycle of a run. */
  lemma FrozenOnce(prog: Program, y: System, h: History, n: nat)
    requires Correct(prog, y, n) && Invariant(prog, h, After(prog, y, n).s, TagsAfter(prog, y, n))
    requires var z := After(prog, y, n); Frozen(z.s, Drives(z)) && !PCSrcE(z.s) && !LoadUseStall(z.s)
    ensures Correct(prog, y, n + 1) && Invariant(prog, h, After(prog, y, n + 1).s, TagsAfter(prog, y, n + 1))
    ensures TagsAfter(prog, y, n + 1) == TagsAfter(prog, y, n)
    ensures var z, x := After(prog, y, n), After(prog, y, n + 1);
      && x.s.m == z.s.m && x.s.mem == z.s.mem && PortOfM(x.s) == PortOfM(z.s)
      && x.cache == Cache.Edge(z.cache, PortOfM(z.s)) && !PCSrcE(x.s) && !LoadUseStall(x.s)
  {
    hide Step, Tick, NextTags, Invariant, CycleOk, After, TagsAfter, Drives, Correct, PCSrcE, LoadUseStall, Frozen,
         PortOfM, Cache.Edge, WriteRegister;
    var z := After(prog, y, n);
    TickStep(prog, y, n);
    FrozenTick(prog, h, z, TagsAfter(prog, y, n));
    Onwards(prog, y, h, n);
  }

  /** A load that finds the cache as switched on waits three cycles and is then served the
      memory's word. */
  lemma FirstLoadServed(prog: Program, y: System, h: History, n: nat)
    requires Correct(prog, y, n) && Invariant(prog, h, After(prog, y, n).s, TagsAfter(prog, y, n))
    requires var z := After(prog, y, n);
      && z.s.m.memRead && !PCSrcE(z.s) && !LoadUseStall(z.s)
      && Cache.AllInvalid(z.cache.lines) && !z.cache.hit && !Cache.Holds(z.cache, AddressOf(z.s.m.aluResult))
    ensures Correct(prog, y, n + 3) && Invariant(prog, h, After(prog, y, n + 3).s, TagsAfter(prog, y, n + 3))
    ensures TagsAfter(prog, y, n + 3) == TagsAfter(prog, y, n)
    ensures var z, x := After(prog, y, n), After(prog, y, n + 3);
      var a := AddressOf(z.s.m.aluResult);
      && x.s.m == z.s.m && x.s.mem == z.s.mem && !PCSrcE(x.s) && !LoadUseStall(x.s)
      && x.cache.hit && Cache.Present(x.cache) && Cache.Holds(x.cache, a)
      && Drives(x) == Cached(true, ReadWord(z.s.mem, a))
  {
    hide Step, Tick, NextTags, Invariant, CycleOk, After, TagsAfter, Correct, PCSrcE, LoadUseStall,
         PortOfM, Cache.Edge, ReadWord, WriteEnables, Cache.Holds, Cache.Present, Cache.AllInvalid;
    var z := After(prog, y, n);
    Signals(z.s, TagsAfter(prog, y, n)) by { IsOrderly(prog, h, z.s, TagsAfter(prog, y, n)); }
    PortOfMFields(z.s);
    ColdMiss(z.cache, PortOfM(z.s));
    FrozenOnce(prog, y, h, n);
    FrozenOnce(prog, y, h, n + 1);
    FrozenOnce(prog, y, h, n + 2);
  }

  /** The load leaves M, and the cache drives the same hit once more, for whatever follows. */
  lemma HitServedAgain(prog: Program, y: System, h: History, n: nat)
    requires Correct(prog, y, n) && Invariant(prog, h, After(prog, y, n).s, TagsAfter(prog, y, n))
    requires var z := After(prog, y, n);
      && z.s.m.memRead && !PCSrcE(z.s) && !LoadUseStall(z.s)
      && z.cache.hit && Cache.Present(z.cache) && Cache.Holds(z.cache, AddressOf(z.s.m.aluResult))
      && Drives(z).data == ReadWord(z.s.mem, AddressOf(z.s.m.aluResult))
    ensures Correct(prog, y, n + 1) && Invariant(prog, h, After(prog, y, n + 1).s, TagsAfter(prog, y, n + 1))
    ensures var z, x, t := After(prog, y, n), After(prog, y, n + 1), TagsAfter(prog, y, n);
      && Drives(x) == Drives(z) && x.cache.hit
      && TagsAfter(prog, y, n + 1).m == t.e && TagsAfter(prog, y, n + 1).w == t.m
      && TagsAfter(prog, y, n + 1).retired == Committed(t)
  {
    hide Step, Tick, Invariant, After, TagsAfter, Correct, PCSrcE, LoadUseStall, SuccessorRight, ForwardsResult,
         ReadWord, Cache.Holds, Cache.Present;
    var z, t := After(prog, y, n), TagsAfter(prog, y, n);
    Signals(z.s, t) by { IsOrderly(prog, h, z.s, t); }
    HitPersists(prog, z);
    LoadInM(z.s);
    CycleKeeps(prog, h, z.s, Drives(z), t);
    Onwards(prog, y, h, n);
    TickStep(prog, y, n);
  }

  /** Where the two loads stand after three cycles. */
  lemma TwoLoadsFilled(prog: Program, h: History, s: State, t: Tags, a: Word, b: Word)
    requires Invariant(prog, h, s, t) && Filled(t) && s.m == Execute(h(0).e, a, b)
    requires h(0).e.memRead && h(0).m.aluResult == 4 && h(1).e.memRead && h(1).e.rd == 2
    requires h(1).before.pc == 4 && prog(8) == 0
    ensures s.m.memRead && AddressOf(s.m.aluResult) == 4 && !PCSrcE(s) && !LoadUseStall(s)
  {
    hide Redirects, Decode, Target, LoadData, WriteRegister, Retire, HoldsArch, HoldsW, SrcA, WriteDataE, PCSrcE, Gaps,
         LoadUseStall, HoldsPC, Execute;
    StageFields(prog, h, 0);
    StageFields(prog, h, 1);
    Signals(s, t);
    NotRedirecting(s);
    ZeroInD(s);
  }

  lemma NotRedirecting(s: State)
    ensures s.e.op / 0x20 != 3 ==> !PCSrcE(s)
  {
    if s.e.op / 0x20 != 3 {
      NoRedirect(s.e, SrcA(s), WriteDataE(s));
    }
  }

  lemma ZeroInD(s: State)
    requires s.d.instr == 0
    ensures s.e.rd != 0 ==> !LoadUseStall(s)
  {
  }

  /** M holds a load about to find the cache as it was switched on, with nothing pending. */
  predicate FirstLoad(z: System, a: Address) {
    && z.s.m.memRead && !PCSrcE(z.s) && !LoadUseStall(z.s) && AddressOf(z.s.m.aluResult) == a
    && Cache.AllInvalid(z.cache.lines) && !z.cache.hit && !Cache.Holds(z.cache, a)
  }

  /** Instruction k is a load, of a word, from b, and no redirect follows it. */
  predicate WordLoad(h: History, k: nat, b: Address) {
    && h(k).e.memRead && h(k).e.rd != 0 && h(k).e.funct3 == 2 && AddressOf(h(k).m.aluResult) == b
    && h(k + 1).e.op == 0
  }

  /** A second load right behind the first is served the first one's word, and that is
      right exactly when the two words are equal. */
  lemma SecondServedFirst(prog: Program, y: System, h: History, n: nat, k: nat, a: Address, b: Address)
    requires Correct(prog, y, n) && Invariant(prog, h, After(prog, y, n).s, TagsAfter(prog, y, n))
    requires FirstLoad(After(prog, y, n), a) && WordLoad(h, k, b) && TagsAfter(prog, y, n).e == Real(k)
    ensures Correct(prog, y, n + 4)
    ensures Invariant(prog, h, After(prog, y, n + 4).s, TagsAfter(prog, y, n + 4))
    ensures TagsAfter(prog, y, n + 4).m == Real(k)
    ensures After(prog, y, n + 4).s.mem == After(prog, y, n).s.mem
    ensures ServedInstead(After(prog, y, n + 4), a, b)
  {
    hide After, TagsAfter, Correct, Invariant, ReadWord, PCSrcE, LoadUseStall, Cache.AllInvalid, Cache.Holds,
         Cache.Present, Step, Tick, CycleOk, WordLoad, FoundData;
    FirstLoadServed(prog, y, h, n);
    HitServedAgain(prog, y, h, n + 3);
    TickStep(prog, y, n + 3);
    NoStoreTick(prog, h, After(prog, y, n + 3), TagsAfter(prog, y, n + 3));
    var x := After(prog, y, n + 4);
    SecondLoadInM(prog, h, x.s, TagsAfter(prog, y, n + 4), Drives(x), k, b);
    HitFound(x);
  }

  lemma HitFound(z: System)
    requires z.cache.hit
    ensures FoundData(z.s, Drives(z)) == Drives(z).data
  {
  }

  /** M's load is at b, is served the word at a, and that is all that can be wrong. */
  predicate ServedInstead(x: System, a: Address, b: Address) {
    && x.s.m.memRead && AddressOf(x.s.m.aluResult) == b && FoundData(x.s, Drives(x)) == ReadWord(x.s.mem, a)
    && x.cache.hit && (CycleOk(x.s, Drives(x)) <==> ReadWord(x.s.mem, a) == ReadWord(x.s.mem, b))
  }

  lemma NoStoreTick(prog: Program, h: History, z: System, t: Tags)
    requires Invariant(prog, h, z.s, t) && z.s.m.memRead
    ensures Tick(prog, z).s.mem == z.s.mem
  {
    Signals(z.s, t);
    NoStore(z.s.m, z.s.mem);
  }

  lemma SecondLoadInM(prog: Program, h: History, s: State, t: Tags, c: Cached, k: nat, b: Address)
    requires Invariant(prog, h, s, t) && t.m == Real(k) && c.hit && WordLoad(h, k, b)
    ensures s.m.memRead && AddressOf(s.m.aluResult) == b && !PCSrcE(s)
    ensures CycleOk(s, c) <==> c.data == ReadWord(s.mem, AddressOf(s.m.aluResult))
  {
    hide Execute, Decode, Redirects, Target, WriteRegister, Retire, ReadWord, ForwardsResult, SuccessorRight, HoldsW,
         HoldsArch, SrcA, WriteDataE, HoldsD, HoldsPC;
    StageFields(prog, h, k);
    LinkedStages(prog, h, k);
    Signals(s, t);
    LoadInM(s);
    if s.e.op / 0x20 != 3 {
      NoRedirect(s.e, SrcA(s), WriteDataE(s));
    }
  }

  lemma SecondWord()
    ensures Encode(Load(LW, 2, 0, 0)) == 0x0000_2103 && CU.Rs2(0x0000_2103) == 0
  {
  }

  /** LW x1, 4(x0); LW x2, 0(x0): the second load hits at once, on the first one's line, and
      is given the word at 4. Exactly when the two words differ this breaks a condition,
      DataCurrent. */
  lemma SecondLoadStale(mem: Memory)
    ensures var prog := Small(Encode(Load(LW, 1, 0, 4)), Encode(Load(LW, 2, 0, 0)), 0);
      var y := Start(mem);
      && Correct(prog, y, 7) && TagsAfter(prog, y, 7).m == Real(1)
      && After(prog, y, 7).s.mem == mem && ServedInstead(After(prog, y, 7), 4, 0)
  {
    hide Encode, After, TagsAfter, Correct, Start, Invariant, Small, ServedInstead, FirstLoad, WordLoad, HistoryOf,
         IsHistory, Names;
    var i, j := Load(LW, 1, 0, 4), Load(LW, 2, 0, 0);
    var prog, y := Small(Encode(i), Encode(j), 0), Start(mem);
    var h := HistoryOf(prog, ArchOf(y.s));
    SmallFacts(Encode(i), Encode(j), 0);
    assert prog(8) == 0;
    TwoLoads(prog, h, mem, 0);
    TwoLoadsStart(prog, mem, h, 3);
    SecondServedFirst(prog, y, h, 3, 1, 4, 0);
  }

  /** A load of a word at a constant address. */
  lemma LoadFacts(prog: Program, h: History, n: nat, i: Instr)
    requires IsHistory(prog, h) && h(n).before.regs[0] == 0 && WellFormed(i) && prog(h(n).before.pc) == Encode(i)
    requires i.Load? && i.lop == LW && i.rs1 == 0 && i.offset >= 0
    ensures var e := h(n).e;
      && e.memRead && e.rd == i.rd && e.rs1 == 0 && e.rs2 == CU.Rs2(Encode(i)) && e.funct3 == 2 && e.op == CU.OP_LOAD
    ensures !h(n).branches && h(n).m.aluResult == Wrap(i.offset)
    ensures h(n + 1).before.pc == Wrap(h(n).before.pc + 4) && h(n + 1).before.regs[0] == 0
  {
    hide Encode, At, IsHistory, Execute, Redirects, Conformance.Decoded, Decode, Target, WriteRegister, Fetch;
    InstrAt(prog, h, n);
    Conformance.DecodedAt(prog, h(n).before, i);
    LoadDecoded(i, h(n).before, h(n).e);
    StageFields(prog, h, n);
    StagesOf(prog, h, n);
    WriteZero(h(n).before.regs, h(n).w);
  }

  lemma InstrAt(prog: Program, h: History, n: nat)
    requires IsHistory(prog, h)
    ensures At(prog, h(n).before) == h(n) && h(n).d.instr == prog(h(n).before.pc)
  {
    assert Linked(prog, h, n);
  }

  /** The two loads as the history has them. */
  lemma TwoLoads(prog: Program, h: History, mem: Memory, n: nat)
    requires prog(0) == Encode(Load(LW, 1, 0, 4)) && prog(4) == Encode(Load(LW, 2, 0, 0)) && prog(8) == 0
    requires h == HistoryOf(prog, ArchOf(Start(mem).s)) && n == 0
    ensures IsHistory(prog, h) && !h(n).branches && h(n).e.memRead && h(n).e.rd == 1 && h(n).m.aluResult == 4
    ensures h(n).e.funct3 == 2
    ensures WordLoad(h, n + 1, 0) && h(n + 1).e.rd == 2 && h(n + 1).before.pc == 4 && !Names(h(n + 1), 1)
  {
    hide Encode, Start, IsHistory, HistoryOf, ReadWord, LoadDecode;
    StartFacts(prog, mem);
    LoadFacts(prog, h, n, Load(LW, 1, 0, 4));
    LoadFacts(prog, h, n + 1, Load(LW, 2, 0, 0));
    SecondWord();
    ZeroWord(prog, h, n + 2);
  }

  lemma WriteZero(regs: Registers, w: RegW)
    ensures WriteRegister(regs, w)[0] == regs[0]
  {
  }

  lemma ZeroWord(prog: Program, h: History, n: nat)
    requires IsHistory(prog, h) && prog(h(n).before.pc) == 0
    ensures h(n).e.op == 0
  {
    hide CU.MainDecoder, CU.AluDecoder, CU.SignExtend, Execute, Writeback, Redirects, LoadData;
    InstrAt(prog, h, n);
    LinkedStages(prog, h, n);
  }

  lemma TwoLoadsStart(prog: Program, mem: Memory, h: History, n: nat)
    requires prog(0) == Encode(Load(LW, 1, 0, 4)) && prog(4) == Encode(Load(LW, 2, 0, 0)) && prog(8) == 0 && n == 3
    requires h == HistoryOf(prog, ArchOf(Start(mem).s))
    ensures Correct(prog, Start(mem), n)
    ensures Invariant(prog, h, After(prog, Start(mem), n).s, TagsAfter(prog, Start(mem), n))
    ensures TagsAfter(prog, Start(mem), n).e == Real(1) && FirstLoad(After(prog, Start(mem), n), 4)
    ensures After(prog, Start(mem), n).s.mem == mem
  {
    hide Encode, After, TagsAfter, Correct, Invariant, IsHistory, Execute, ReadWord, PCSrcE, LoadUseStall, PowerOn,
         Drives, Cache.COLD, AtReset, HistoryOf, Cache.AllInvalid;
    var y := Start(mem);
    StartFacts(prog, mem);
    TwoLoads(prog, h, mem, n - 3);
    StageFields(prog, h, 0);
    var a, b := ThreeCycles(prog, y, h, n);
    TwoLoadsFilled(prog, h, After(prog, y, n).s, TagsAfter(prog, y, n), a, b);
    CorrectNoneLost(prog, y, n);
    ColdStart(prog, y, 0, mem, n);
    Cache.ColdInvalid();
    MemUnchanged(prog, h, After(prog, y, n).s, TagsAfter(prog, y, n));
  }

  lemma MemUnchanged(prog: Program, h: History, s: State, t: Tags)
    requires Invariant(prog, h, s, t) && Filled(t)
    ensures s.mem == h(0).before.mem
  {
  }

  /** A word load that hits writes what it is served, and is the last committed. */
  lemma LoadWrites(prog: Program, h: History, z: System, t: Tags, k: nat, v: Word)
    requires Invariant(prog, h, z.s, t) && t.m == Real(k) && z.cache.hit && FoundData(z.s, Drives(z)) == v
    requires h(k).e.memRead && h(k).e.rd != 0 && h(k).e.funct3 == 2
    ensures var x := Tick(prog, z).s; WriteRegister(x.regs, x.w)[h(k).e.rd] == v
    ensures Committed(NextTags(z.s, Drives(z), t)) == k + 1
  {
    hide Execute, Decode, Redirects, Target, Fetch, ReadWord, PCSrcE, LoadUseStall, HoldsE, HoldsD, HoldsArch;
    StageFields(prog, h, k);
    LinkedStages(prog, h, k);
  }

  /** What the sequential machine loads. */
  lemma LoadsSequentially(prog: Program, h: History, k: nat)
    requires IsHistory(prog, h) && h(k).e.memRead && h(k).e.rd != 0 && h(k).e.funct3 == 2
    ensures h(k + 1).before.regs[h(k).e.rd] == ReadWord(h(k).before.mem, AddressOf(h(k).m.aluResult))
    ensures h(k + 1).before.mem == h(k).before.mem
  {
    hide Execute, Decode, Redirects, Target, Fetch, ReadWord;
    StageFields(prog, h, k);
    LinkedStages(prog, h, k);
    LinkedRegs(prog, h, k);
    NoStore(h(k).m, h(k).before.mem);
  }

  /** So the complete machine does not refine the sequential one: after both loads x2 is the
      word at 4 where the sequential machine has the word at 0. */
  lemma SecondLoadWrong(mem: Memory)
    ensures var prog := Small(Encode(Load(LW, 1, 0, 4)), Encode(Load(LW, 2, 0, 0)), 0);
      var s := After(prog, Start(mem), 8).s;
      && Committed(TagsAfter(prog, Start(mem), 8)) == 2
      && WriteRegister(s.regs, s.w)[2] == ReadWord(mem, 4)
      && Seq(prog, ArchOf(Start(mem).s), 2).regs[2] == ReadWord(mem, 0)
  {
    hide Encode, After, TagsAfter, Correct, Start, Invariant, Small, FirstLoad, HistoryOf, IsHistory, Names, Seq, Tick,
         WriteRegister, ReadWord, FoundData, CycleOk, NextTags, Committed, Step, Drives;
    var i, j := Load(LW, 1, 0, 4), Load(LW, 2, 0, 0);
    var prog, y := Small(Encode(i), Encode(j), 0), Start(mem);
    var h := HistoryOf(prog, ArchOf(y.s));
    SmallFacts(Encode(i), Encode(j), 0);
    assert prog(8) == 0;
    TwoLoads(prog, h, mem, 0);
    TwoLoadsStart(prog, mem, h, 3);
    SecondServedFirst(prog, y, h, 3, 1, 4, 0);
    var z := After(prog, y, 7);
    LoadWrites(prog, h, z, TagsAfter(prog, y, 7), 1, ReadWord(mem, 4));
    TickStep(prog, y, 7);
    TwoLoadsSequentially(prog, mem, h, 0);
    HistoryBefore(prog, ArchOf(y.s), 2);
  }

  lemma TwoLoadsSequentially(prog: Program, mem: Memory, h: History, n: nat)
    requires prog(0) == Encode(Load(LW, 1, 0, 4)) && prog(4) == Encode(Load(LW, 2, 0, 0)) && prog(8) == 0
    requires h == HistoryOf(prog, ArchOf(Start(mem).s)) && n == 0
    ensures h(n + 2).before.regs[2] == ReadWord(mem, 0)
  {
    hide Encode, Start, HistoryOf, IsHistory, Names, ReadWord;
    TwoLoads(prog, h, mem, n);
    StartFacts(prog, mem);
    LoadsSequentially(prog, h, n);
    LoadsSequentially(prog, h, n + 1);
  }

  // ------------------------------------------------------------- NothingLost fails

  /** Any redirect right behind any load that misses is flushed without being taken, and is
      in no stage ever after, whatever the cache then does. */
  lemma RedirectBehindMissLost(prog: Program, h: History, o: Config, c: Cached, n: nat, cs: seq<Cached>)
    requires Invariant(prog, h, o.s, o.t) && o.t.m == Real(n) && o.t.e == Real(n + 1)
    requires h(n + 1).branches && Frozen(o.s, c)
    ensures PCSrcE(o.s) && !CycleOk(o.s, c) && Step(prog, o.s, c).pc == o.s.pc
    ensures Gone(Run(prog, Config(Step(prog, o.s, c), NextTags(o.s, c, o.t)), cs).t, n + 1)
  {
    hide Invariant, Run, Gone, Step, NextTags, ForwardsResult, SuccessorRight, DataCurrent, PCSrcE;
    RedirectsBehindLoad(prog, h, o.s, o.t, c, n);
    IsOrderly(prog, h, o.s, o.t);
    FlushWhileFrozenLoses(prog, o.s, c, o.t);
    GoneForever(prog, Config(Step(prog, o.s, c), NextTags(o.s, c, o.t)), cs, n + 1);
  }

  lemma RedirectsBehindLoad(prog: Program, h: History, s: State, t: Tags, c: Cached, n: nat)
    requires Invariant(prog, h, s, t) && t.m == Real(n) && t.e == Real(n + 1)
    requires h(n + 1).branches && Frozen(s, c)
    ensures PCSrcE(s) && Step(prog, s, c).pc == s.pc
  {
    hide Invariant, PCSrcE, LoadUseStall, NextD, NextE, NextM, NextW, StoreData, WriteRegister;
    RedirectBehindLoad(prog, h, s, t);
  }

  lemma {:induction false} GoneAfter(prog: Program, y: System, m: nat, n: nat, k: nat)
    requires m <= n && Gone(TagsAfter(prog, y, m), k)
    ensures Gone(TagsAfter(prog, y, n), k)
  {
    hide Gone, After, NextTags, Drives;
    if m < n {
      GoneAfter(prog, y, m, n - 1, k);
      var z := After(prog, y, n - 1);
      GoneKept(z.s, Drives(z), TagsAfter(prog, y, n - 1), k);
    }
  }

  /** A load missing in M and a taken branch in E: the branch is flushed, the PC stays. */
  lemma FlushTick(prog: Program, z: System)
    requires z.s.m.memRead && !z.s.m.memWrite && !z.cache.hit && PCSrcE(z.s)
    ensures !NothingLost(z.s, Drives(z))
    ensures var x := Tick(prog, z);
      && x.s.pc == z.s.pc && x.s.d == CLEAR_D && x.s.e == CLEAR_E && x.s.m == z.s.m
      && x.cache == Cache.Edge(z.cache, PortOfM(z.s)) && PortOfM(x.s) == PortOfM(z.s)
  {
    hide PCSrcE, Cache.Edge, StoreData, ReadWord;
    NoStore(z.s.m, z.s.mem);
  }

  lemma ClearInE(s: State)
    requires s.e == CLEAR_E
    ensures !PCSrcE(s) && !LoadUseStall(s) && !Execute(s.e, SrcA(s), WriteDataE(s)).memRead
  {
    NoRedirect(s.e, SrcA(s), WriteDataE(s));
  }

  lemma WaitTick(prog: Program, z: System)
    requires z.s.m.memRead && !z.s.m.memWrite && !z.cache.hit && z.s.d == CLEAR_D && z.s.e == CLEAR_E
    ensures var x := Tick(prog, z);
      && x.s.pc == z.s.pc && x.s.d == CLEAR_D && x.s.e == CLEAR_E && x.s.m == z.s.m
      && x.cache == Cache.Edge(z.cache, PortOfM(z.s))
  {
    hide PCSrcE, LoadUseStall, Cache.Edge, StoreData, ReadWord;
    ClearInE(z.s);
  }

  /** Once the load hits, fetching goes on where it stopped. */
  lemma ResumeTick(prog: Program, z: System)
    requires z.cache.hit && z.s.d == CLEAR_D && z.s.e == CLEAR_E
    ensures var x := Tick(prog, z).s;
      x.d == Fetch(prog, z.s.pc) && Inert(x.e) && !x.m.memRead
  {
    hide PCSrcE, LoadUseStall, Execute, Fetch;
    ClearInE(z.s);
    DecoderFacts(z.s.d, z.s.regs[0], z.s.regs[0]);
  }

  lemma InertInE(s: State)
    requires Inert(s.e)
    ensures !PCSrcE(s) && !LoadUseStall(s) && !Execute(s.e, SrcA(s), WriteDataE(s)).memRead
  {
    InertOperands(s);
  }

  lemma FetchedTick(prog: Program, z: System)
    requires Inert(z.s.e) && !z.s.m.memRead
    ensures var x := Tick(prog, z).s;
      && x.e == Decode(z.s.d, x.regs[CU.Rs1(z.s.d.instr)], x.regs[CU.Rs2(z.s.d.instr)]) && !x.m.memRead
  {
    hide PCSrcE, LoadUseStall, Execute, Decode, Inert;
    InertInE(z.s);
  }

  /** ADDI x2, x0, 1 in E and then in M. */
  lemma DecodedTick(prog: Program, z: System)
    requires z.s.e.rs1 == 0 && z.s.e.rd1 == 0 && z.s.e.op / 0x20 != 3 && z.s.e.resultSrc == 0 && !z.s.m.memRead
    requires AddsTo(z.s.e, 1)
    ensures var x := Tick(prog, z).s;
      x.m.aluResult == 1 && x.m.rd == z.s.e.rd && x.m.regWrite == z.s.e.regWrite && x.m.resultSrc == 0
      && x.m.memRead == z.s.e.memRead
  {
    hide PCSrcE, Alu.Result;
    NotRedirecting(z.s);
    assert SrcA(z.s) == 0;
    assert Execute(z.s.e, SrcA(z.s), WriteDataE(z.s)).aluResult == 1;
  }

  lemma ExecutedTick(prog: Program, z: System)
    requires z.s.m.aluResult == 1 && z.s.m.rd == 2 && z.s.m.regWrite && z.s.m.resultSrc == 0 && !z.s.m.memRead
    ensures var x := Tick(prog, z).s; WriteRegister(x.regs, x.w)[2] == 1
  {
    hide PCSrcE, LoadUseStall, Execute, Decode;
  }

  lemma {:induction false} ZeroRegister(prog: Program, y: System, n: nat)
    requires y.s.regs[0] == 0
    ensures After(prog, y, n).s.regs[0] == 0
  {
    hide Cache.Edge, NextPC, NextD, NextE, NextM, NextW, StoreData;
    if n > 0 {
      ZeroRegister(prog, y, n - 1);
    }
  }

  /** A line refilled for the address it was registered for hits one cycle later. */
  lemma RegisteredMiss(c: Cache.CacheState, p: Cache.Port)
    requires Cache.AllInvalid(c.lines) && !c.hit && Cache.Holds(c, p.a) && p.memRead && p.we == Cache.NO_LANES
    ensures !Cache.Edge(c, p).hit && Cache.Edge(Cache.Edge(c, p), p).hit
  {
  }

  /** From the flush on: the instruction at the PC is fetched, and if it is ADDI x2, x0, 1
      it sets x2 six cycles later. */
  lemma SixCyclesOn(prog: Program, y: System, n: nat, at: Word)
    requires var z := After(prog, y, n);
      && z.s.m.memRead && !z.s.m.memWrite && !z.cache.hit && PCSrcE(z.s) && z.s.pc == at
      && Cache.AllInvalid(z.cache.lines) && Cache.Holds(z.cache, AddressOf(z.s.m.aluResult))
    requires prog(at) == Encode(OpImm(ADD, 2, 0, 1)) && y.s.regs[0] == 0
    ensures var s := After(prog, y, n + 6).s; WriteRegister(s.regs, s.w)[2] == 1
  {
    hide After, Tick, Encode, PCSrcE, Cache.Edge, Cache.AllInvalid, Cache.Holds, PortOfM, WriteRegister, Execute,
         Decode, Conformance.Decoded, AddsTo, Inert;
    var z0, z1, z2 := After(prog, y, n), After(prog, y, n + 1), After(prog, y, n + 2);
    var z3, z4, z5 := After(prog, y, n + 3), After(prog, y, n + 4), After(prog, y, n + 5);
    TickStep(prog, y, n);
    TickStep(prog, y, n + 1);
    TickStep(prog, y, n + 2);
    TickStep(prog, y, n + 3);
    TickStep(prog, y, n + 4);
    TickStep(prog, y, n + 5);
    PortOfMFields(z0.s);
    RegisteredMiss(z0.cache, PortOfM(z0.s));
    FlushTick(prog, z0);
    WaitTick(prog, z1);
    ResumeTick(prog, z2);
    FetchedTick(prog, z3);
    ZeroRegister(prog, y, n + 4);
    AddiFetched(prog, z4.s, z3.s.d, at);
    DecodedTick(prog, z4);
    ExecutedTick(prog, z5);
  }

  lemma AddiFetched(prog: Program, s: State, d: RegD, at: Word)
    requires d == Fetch(prog, at) && prog(at) == Encode(OpImm(ADD, 2, 0, 1)) && s.regs[0] == 0
    requires s.e == Decode(d, s.regs[CU.Rs1(d.instr)], s.regs[CU.Rs2(d.instr)])
    ensures s.e.rs1 == 0 && s.e.rd1 == 0 && s.e.op == CU.OP_IMM && s.e.resultSrc == 0 && !s.e.memRead
    ensures s.e.regWrite && s.e.rd == 2 && AddsTo(s.e, 1)
  {
    hide Encode, Decode, Conformance.Decoded, Execute, Redirects, LoadData;
    var a := Arch(at, s.regs, s.mem);
    Conformance.DecodedAt(prog, a, OpImm(ADD, 2, 0, 1));
    AddiDecoded(OpImm(ADD, 2, 0, 1), a, At(prog, a).e);
  }

  /** LW x1, 0(x0); BEQ x0, x0, 16 with ADDI x2, x0, 1 at 12, which the branch skips. */
  predicate Skipping(prog: Program) {
    && prog(0) == Encode(Load(LW, 1, 0, 0)) && prog(4) == Encode(Branch(BEQ, 0, 0, 16))
    && prog(12) == Encode(OpImm(ADD, 2, 0, 1))
  }

  /** The sequential machine never comes to 12, nor to anything else that writes x2. */
  predicate Skipped(a: Arch) {
    a.regs[0] == 0 && a.regs[2] == 0 && a.pc % 4 == 0 && (a.pc <= 4 || a.pc >= 20)
  }

  lemma SkippedStep(prog: Program, a: Arch)
    requires Skipping(prog) && (forall pc: Word :: pc != 0 && pc != 4 && pc != 12 ==> prog(pc) == 0) && Skipped(a)
    ensures Skipped(Next(prog, a))
  {
    hide Encode, Decode, Execute, Redirects, LoadData, StoreData, Conformance.Decoded, AddsTo, Target;
    var i := At(prog, a);
    var e := i.e;
    ExecutedFields(e);
    if a.pc == 0 {
      Conformance.DecodedAt(prog, a, Load(LW, 1, 0, 0));
      LoadDecoded(Load(LW, 1, 0, 0), a, e);
    } else if a.pc == 4 {
      Conformance.DecodedAt(prog, a, Branch(BEQ, 0, 0, 16));
      BeqDecoded(Branch(BEQ, 0, 0, 16), a, e);
    } else {
      DecoderFacts(i.d, e.rd1, e.rd2);
      DecoderFacts(i.d, a.regs[CU.Rs1(i.d.instr)], a.regs[CU.Rs2(i.d.instr)]);
      NoRedirect(e, e.rd1, e.rd2);
    }
  }

  lemma ExecutedFields(e: RegE)
    ensures var m := Execute(e, e.rd1, e.rd2); m.regWrite == e.regWrite && m.rd == e.rd
  {
  }

  lemma {:induction false} SkippedForever(prog: Program, a: Arch, n: nat)
    requires Skipping(prog) && (forall pc: Word :: pc != 0 && pc != 4 && pc != 12 ==> prog(pc) == 0) && Skipped(a)
    ensures Skipped(Seq(prog, a, n))
  {
    hide Next, Skipping, Skipped;
    if n > 0 {
      SkippedForever(prog, a, n - 1);
      SkippedStep(prog, Seq(prog, a, n - 1));
    }
  }

  /** The load and the branch as the history has them. */
  lemma BranchFacts(prog: Program, h: History, mem: Memory, n: nat)
    requires Skipping(prog) && h == HistoryOf(prog, ArchOf(Start(mem).s)) && n == 0
    ensures IsHistory(prog, h) && !h(n).branches && h(n).e.memRead && h(n).e.rd == 1 && h(n).m.aluResult == 0
    ensures h(n + 1).branches && !Names(h(n + 1), 1) && h(n + 1).before.pc == 4
  {
    hide Encode, Start, HistoryOf, At, Execute, Redirects, Target, Decode, Conformance.Decoded;
    StartFacts(prog, mem);
    LoadFacts(prog, h, n, Load(LW, 1, 0, 0));
    InstrAt(prog, h, n + 1);
    Conformance.DecodedAt(prog, h(n + 1).before, Branch(BEQ, 0, 0, 16));
    BeqDecoded(Branch(BEQ, 0, 0, 16), h(n + 1).before, h(n + 1).e);
    StagesOf(prog, h, n + 1);
  }

  /** The taken branch is in E behind the missing load in M; the PC is at 12. */
  lemma BranchBehindLoad(prog: Program, h: History, s: State, t: Tags, a: Word, b: Word)
    requires Invariant(prog, h, s, t) && Filled(t) && s.m == Execute(h(0).e, a, b)
    requires h(0).e.memRead && h(0).m.aluResult == 0 && h(1).branches && h(1).before.pc == 4
    ensures s.m.memRead && !s.m.memWrite && AddressOf(s.m.aluResult) == 0 && PCSrcE(s) && s.pc == 12
  {
    hide Redirects, Decode, Target, LoadData, WriteRegister, Retire, HoldsArch, HoldsW, SrcA, WriteDataE, Gaps,
         LoadUseStall, Execute;
    StageFields(prog, h, 0);
    StageFields(prog, h, 1);
    LinkedStages(prog, h, 1);
    Signals(s, t);
    LoadInM(s);
    OperandsFreshIff(prog, h, s, t);
    ExecuteByOperands(h(1).e, s.e.rd1, s.e.rd2, h(1).e.rd1, h(1).e.rd2);
  }

  lemma BranchStart(prog: Program, mem: Memory, h: History, n: nat)
    requires Skipping(prog) && h == HistoryOf(prog, ArchOf(Start(mem).s)) && n == 3
    ensures Correct(prog, Start(mem), n) && Filled(TagsAfter(prog, Start(mem), n))
    ensures var z := After(prog, Start(mem), n);
      && z.s.m.memRead && !z.s.m.memWrite && !z.cache.hit && PCSrcE(z.s) && z.s.pc == 12
      && Cache.AllInvalid(z.cache.lines) && Cache.Holds(z.cache, AddressOf(z.s.m.aluResult))
      && Orderly(z.s, TagsAfter(prog, Start(mem), n))
  {
    hide Encode, After, TagsAfter, Correct, Invariant, IsHistory, Execute, ReadWord, PCSrcE, LoadUseStall, PowerOn,
         Drives, Cache.COLD, AtReset, HistoryOf, Cache.AllInvalid, Skipping, Orderly;
    var y := Start(mem);
    StartFacts(prog, mem);
    BranchFacts(prog, h, mem, n - 3);
    StageFields(prog, h, 0);
    var a, b := ThreeCycles(prog, y, h, n);
    BranchBehindLoad(prog, h, After(prog, y, n).s, TagsAfter(prog, y, n), a, b);
    CorrectNoneLost(prog, y, n);
    ColdStart(prog, y, 0, mem, n);
    Cache.ColdInvalid();
    IsOrderly(prog, h, After(prog, y, n).s, TagsAfter(prog, y, n));
  }

  /** The load misses and the branch behind it is flushed without being taken. It never comes
      back, and the machine executes what the branch skips: it sets x2, which the sequential
      machine never does. */
  lemma BranchBehindMissLost(mem: Memory)
    ensures var prog := Small(Encode(Load(LW, 1, 0, 0)), Encode(Branch(BEQ, 0, 0, 16)), Encode(OpImm(ADD, 2, 0, 1)));
      var y := Start(mem);
      && Correct(prog, y, 3) && !NothingLostAt(prog, y, 3)
      && (forall n: nat :: n >= 4 ==> Gone(TagsAfter(prog, y, n), 1))
      && WriteRegister(After(prog, y, 9).s.regs, After(prog, y, 9).s.w)[2] == 1
      && forall n: nat :: Seq(prog, ArchOf(y.s), n).regs[2] == 0
  {
    hide Encode, After, TagsAfter, Correct, Start, Small, HistoryOf, Seq, Tick, WriteRegister, Cache.AllInvalid,
         Cache.Holds, Gone, PCSrcE, Orderly, NothingLost, NextTags;
    var i, j, k := Load(LW, 1, 0, 0), Branch(BEQ, 0, 0, 16), OpImm(ADD, 2, 0, 1);
    var prog, y := Small(Encode(i), Encode(j), Encode(k)), Start(mem);
    SmallFacts(Encode(i), Encode(j), Encode(k));
    StartFacts(prog, mem);
    BranchStart(prog, mem, HistoryOf(prog, ArchOf(y.s)), 3);
    var z := After(prog, y, 3);
    FlushTick(prog, z);
    FlushWhileFrozenLoses(prog, z.s, Drives(z), TagsAfter(prog, y, 3));
    TickStep(prog, y, 3);
    forall n: nat | n >= 4
      ensures Gone(TagsAfter(prog, y, n), 1)
    {
      GoneAfter(prog, y, 4, n, 1);
    }
    SixCyclesOn(prog, y, 3, 12);
    forall n: nat
      ensures Seq(prog, ArchOf(y.s), n).regs[2] == 0
    {
      SkippedForever(prog, ArchOf(y.s), n);
    }
  }
}
