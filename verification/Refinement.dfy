/** The pipeline refines the sequential machine. Each stage carries the number of
    the instruction it holds; an invariant ties the contents of every register to
    the sequential execution, and the conditions under which a cycle keeps it are
    stated exactly. */
module Refinement {
  import opened Words
  import opened DataMemory
  import opened Pipeline
  import opened Sequential
  import CU = ControlUnit
  import Alu

  datatype Slot = Bubble | Real(n: nat)

  function Count(x: Slot): nat {
    if x.Real? then 1 else 0
  }

  /** The instruction numbers travelling with the pipeline: `fetch` is the number of
      the instruction being fetched, `retired` counts the instructions that have left W. */
  datatype Tags = Tags(fetch: nat, d: Slot, e: Slot, m: Slot, w: Slot, retired: nat)

  /** The numbers move with the registers, under the same stalls and flushes. */
  function NextTags(s: State, c: Cached, t: Tags): Tags {
    var hold := LoadUseStall(s) || Frozen(s, c);
    Tags(if hold then t.fetch
         else if PCSrcE(s) then (if t.e.Real? then t.e.n + 1 else t.fetch)
         else t.fetch + 1,
         if PCSrcE(s) then Bubble else if hold then t.d else Real(t.fetch),
         if PCSrcE(s) || LoadUseStall(s) then Bubble else if Frozen(s, c) then t.e else t.d,
         if Frozen(s, c) then t.m else t.e,
         if Frozen(s, c) then t.w else t.m,
         if Frozen(s, c) then t.retired else t.retired + Count(t.w))
  }

  // ------------------------------------------------------------------- order

  /** The number of instructions that have reached W; M; E; D. */
  function Committed(t: Tags): nat { t.retired + Count(t.w) }
  function ThroughM(t: Tags): nat { Committed(t) + Count(t.m) }
  function ThroughE(t: Tags): nat { ThroughM(t) + Count(t.e) }
  function ThroughD(t: Tags): nat { ThroughE(t) + Count(t.d) }

  /** In order, without gaps or repetition: W holds the next instruction to retire
      and each younger stage the one after. */
  predicate InOrder(t: Tags) {
    && (t.w.Real? ==> t.w.n == t.retired)
    && (t.m.Real? ==> t.m.n == Committed(t))
    && (t.e.Real? ==> t.e.n == ThroughM(t))
    && (t.d.Real? ==> t.d.n == ThroughE(t))
    && t.fetch == ThroughD(t)
    && (t.e.Real? ==> t.d.Real?)
  }

  predicate Inert(e: RegE) {
    !e.regWrite && !e.memWrite && !e.memRead && e.resultSrc == 0 && e.op == 0 && e.rs1 == 0 && e.rs2 == 0
  }

  /** Empty stages do nothing. */
  predicate BubblesInert(s: State, t: Tags) {
    && (t.d.Bubble? ==> s.d.instr == 0)
    && (t.e.Bubble? ==> Inert(s.e))
    && (t.m.Bubble? ==> !s.m.regWrite && !s.m.memWrite && !s.m.memRead)
    && (t.w.Bubble? ==> !s.w.regWrite)
  }

  /** What every decoded instruction's control signals satisfy. */
  predicate Controls(e: RegE) {
    && (e.memRead <==> e.resultSrc == 1) && e.resultSrc <= 2
    && (e.memRead ==> e.regWrite && !e.memWrite && e.op == 3)
    && (e.regWrite && e.resultSrc == 0 ==> e.op / 0x20 != 3)
  }

  predicate ControlsM(m: RegM) {
    (m.memRead <==> m.resultSrc == 1) && m.resultSrc <= 2 && (m.memRead ==> m.regWrite && !m.memWrite)
  }

  /** The part of the invariant that does not mention what the instructions compute. */
  predicate Orderly(s: State, t: Tags) {
    InOrder(t) && BubblesInert(s, t) && (t.e.Real? ==> Controls(s.e)) && (t.m.Real? ==> ControlsM(s.m))
  }

  // ---------------------------------------------------------------- invariant

  /** M will have the effect instruction k has: the fields that reach a register, the
      memory or a memory address agree. */
  predicate SameEffect(m: RegM, k: RegM) {
    && m == k.(aluResult := m.aluResult, writeData := m.writeData)
    && (UsesResult(k) ==> m.aluResult == k.aluResult)
    && (k.memWrite ==> m.writeData == k.writeData)
  }

  predicate UsesResult(m: RegM) {
    m.memRead || m.memWrite || (m.regWrite && m.rd != 0 && m.resultSrc == 0)
  }

  predicate HoldsW(h: History, s: State, t: Tags) {
    t.w.Real? ==> Retire(s.w) == Retire(h(t.w.n).w)
  }

  predicate HoldsM(h: History, s: State, t: Tags) {
    t.m.Real? ==> SameEffect(s.m, h(t.m.n).m)
  }

  /** RD1E and RD2E are the register values as of the instructions that have retired. */
  predicate HoldsE(h: History, s: State, t: Tags) {
    t.e.Real? ==>
      var i, regs := h(t.e.n), h(t.retired).before.regs;
      s.e == i.e.(rd1 := regs[i.e.rs1], rd2 := regs[i.e.rs2])
  }

  /** The instruction fetched behind one that is at pc. */
  function Behind(pc: Word): Word { Wrap(pc + 4) }

  /** D is fetched from behind E, whether or not the execution goes there. */
  predicate HoldsD(prog: Program, h: History, s: State, t: Tags) {
    t.d.Real? ==> s.d == Fetch(prog, if t.e.Real? then Behind(h(t.e.n).before.pc) else h(t.d.n).before.pc)
  }

  predicate HoldsPC(h: History, s: State, t: Tags) {
    s.pc == if t.d.Real? then Behind(s.d.pc) else h(t.fetch).before.pc
  }

  /** Registers after W's write, and data memory, agree with the sequential machine
      after the instructions that have reached W. */
  predicate HoldsArch(h: History, s: State, t: Tags) {
    var x := h(Committed(t)).before;
    WriteRegister(s.regs, s.w) == x.regs && s.mem == x.mem
  }

  predicate AlwaysRedirects(e: RegE) { e.op / 0x20 == 3 && e.op % 8 == 7 }

  /** The execution goes from instruction n to the one behind it. */
  predicate Straight(h: History, n: nat) {
    h(n + 1).before.pc == Behind(h(n).before.pc)
  }

  /** Some register field of the instruction names r. */
  predicate Names(i: Insn, r: Reg) {
    i.e.rs1 == r || i.e.rs2 == r
  }

  /** Instruction n is followed by the one behind it, without a jump. */
  predicate FallsThrough(h: History, n: nat) {
    Straight(h, n) && !AlwaysRedirects(h(n).e)
  }

  /** And its successor does not wait for what it loads. */
  predicate Adjacent(h: History, n: nat) {
    FallsThrough(h, n) && !(h(n).e.memRead && Names(h(n + 1), h(n).m.rd))
  }

  /** What separates neighbours: a load in M has no consumer in E, a redirect nothing
      behind it, and nothing else makes a gap between M and E. */
  predicate Gaps(h: History, s: State, t: Tags) {
    t.m.Real? ==>
      && (t.e.Real? ==> Straight(h, t.m.n) && !AlwaysRedirects(h(t.m.n).e)
                        && (s.m.resultSrc == 1 ==> s.e.rs1 != s.m.rd && s.e.rs2 != s.m.rd))
      && (t.e.Bubble? ==> h(t.m.n).e.op / 0x20 == 3 || (s.m.memRead && Names(h(t.m.n + 1), s.m.rd)))
      && (!FallsThrough(h, t.m.n) ==> t.e.Bubble? && t.d.Bubble?)
  }

  /** The same one stage on: W and M hold neighbours only if nothing separates them, and
      two bubbles follow a jump. */
  predicate GapsBehindW(h: History, t: Tags) {
    t.w.Real? ==>
      && (t.m.Real? ==> Adjacent(h, t.w.n))
      && (t.e.Real? ==> FallsThrough(h, t.w.n))
  }

  ghost predicate Invariant(prog: Program, h: History, s: State, t: Tags) {
    && IsHistory(prog, h)
    && Orderly(s, t)
    && HoldsW(h, s, t)
    && HoldsM(h, s, t)
    && HoldsE(h, s, t)
    && HoldsD(prog, h, s, t)
    && HoldsPC(h, s, t)
    && HoldsArch(h, s, t)
    && Gaps(h, s, t)
    && GapsBehindW(h, t)
  }

  // ------------------------------------------------------ conditions on cycles

  /** What the forwarding multiplexer should give: from M, the result M will write back. */
  function NewestOperand(s: State, rs: Reg, rd: Word): Word {
    var f := Forward(rs, s.m, s.w);
    if f >= 2 then (if s.m.resultSrc == 2 then s.m.pcPlus4 else s.m.aluResult)
    else if f == 1 then Result(s.w) else rd
  }

  function NewestA(s: State): Word { NewestOperand(s, s.e.rs1, s.e.rd1) }

  function NewestB(s: State): Word { NewestOperand(s, s.e.rs2, s.e.rd2) }

  /** Forwarding from M hands over ALUResultM where the result is PCPlus4M, and E's
      effect is the same nevertheless. */
  predicate ForwardsResult(s: State) {
    SameEffect(Execute(s.e, SrcA(s), WriteDataE(s)), Execute(s.e, NewestA(s), NewestB(s)))
  }

  /** The PC after the instruction in E, for a redirect decision and a jump base. */
  function Successor(e: RegE, redirects: bool, base: Word): Word {
    if redirects then Target(e.(rd1 := base)) else e.pcPlus4
  }

  /** The redirect decision from the forwarded operands and the jump from the
      unforwarded RD1E go where the newest operands say. */
  predicate SuccessorRight(s: State) {
    Successor(s.e, PCSrcE(s), s.e.rd1) == Successor(s.e, Redirects(s.e, NewestA(s), NewestB(s)), NewestA(s))
  }

  /** No flush of E while M is held. */
  predicate NothingLost(s: State, c: Cached) {
    Frozen(s, c) ==> !PCSrcE(s) && !LoadUseStall(s)
  }

  /** A load leaving M carries what the data memory holds, unless it writes x0. */
  predicate DataCurrent(s: State, c: Cached) {
    s.m.memRead && c.hit && s.m.rd != 0 ==> LoadDecode(c.data, s.m.funct3) == LoadData(s.m, s.mem)
  }

  predicate CycleOk(s: State, c: Cached) {
    ForwardsResult(s) && SuccessorRight(s) && NothingLost(s, c) && DataCurrent(s, c)
  }

  // -------------------------------------------------------- operand freshness

  /** The forwarded value is the result of the instruction it comes from. */
  predicate TakesResult(s: State, rs: Reg) {
    s.m.resultSrc == 2 && Forward(rs, s.m, s.w) == 2 ==> s.m.aluResult == s.m.pcPlus4
  }

  /** The newest writer wins: the newest operand is the register after W's and then M's
      write, and the forwarding multiplexer gives it exactly when it does not take the
      ALU result of an instruction whose result is PC+4. */
  lemma OperandIff(s: State, rs: Reg, regs: Registers, loaded: Word)
    requires s.m.resultSrc <= 2
    requires s.m.regWrite && s.m.resultSrc == 1 ==> rs != s.m.rd
    ensures NewestOperand(s, rs, regs[rs]) == WriteRegister(WriteRegister(regs, s.w), Writeback(s.m, loaded))[rs]
    ensures Operand(s, rs, regs[rs]) == NewestOperand(s, rs, regs[rs]) <==> TakesResult(s, rs)
  {
  }

  lemma SameWrite(regs: Registers, w: RegW, v: RegW)
    requires Retire(w) == Retire(v)
    ensures WriteRegister(regs, w) == WriteRegister(regs, v)
  {
  }

  lemma SameRetirement(m: RegM, k: RegM, x: Word, y: Word)
    requires SameEffect(m, k) && k.resultSrc <= 2 && (k.resultSrc == 1 && k.rd != 0 ==> x == y)
    requires k.memRead <==> k.resultSrc == 1
    ensures Retire(Writeback(m, x)) == Retire(Writeback(k, y))
  {
  }

  lemma LinkedRegs(prog: Program, h: History, n: nat)
    requires IsHistory(prog, h)
    ensures h(n + 1).before.regs == WriteRegister(h(n).before.regs, h(n).w)
    ensures h(n + 1).before.mem == StoreData(h(n).m, h(n).before.mem)
    ensures h(n + 1).before.pc == if h(n).branches then Target(h(n).e) else Behind(h(n).before.pc)
  {
    assert Linked(prog, h, n);
  }

  lemma LinkedStages(prog: Program, h: History, n: nat)
    requires IsHistory(prog, h)
    ensures h(n).d == Fetch(prog, h(n).before.pc)
    ensures h(n).e == Decode(h(n).d, h(n).before.regs[CU.Rs1(h(n).d.instr)], h(n).before.regs[CU.Rs2(h(n).d.instr)])
    ensures h(n).m == Execute(h(n).e, h(n).e.rd1, h(n).e.rd2)
    ensures h(n).w == Writeback(h(n).m, LoadData(h(n).m, h(n).before.mem))
    ensures h(n).branches == Redirects(h(n).e, h(n).e.rd1, h(n).e.rd2)
  {
    assert Linked(prog, h, n);
  }

  lemma DecoderFacts(d: RegD, rd1: Word, rd2: Word)
    ensures var e := Decode(d, rd1, rd2);
      Controls(e) && (e.resultSrc == 2 ==> e.op == CU.OP_AUIPC || AlwaysRedirects(e))
    ensures d.instr == 0 ==> Inert(Decode(d, rd1, rd2))
  {
  }

  /** The control signals of instruction n in every stage. */
  lemma StageFields(prog: Program, h: History, n: nat)
    requires IsHistory(prog, h)
    ensures var i := h(n);
      && i.m.resultSrc == i.e.resultSrc && i.m.rd == i.e.rd == i.w.rd && i.m.memRead == i.e.memRead
      && i.m.funct3 == i.e.funct3 && i.d.instr == prog(i.before.pc)
      && i.m.memWrite == i.e.memWrite && i.m.regWrite == i.e.regWrite == i.w.regWrite
      && i.e.rs1 == CU.Rs1(i.d.instr) && i.e.rs2 == CU.Rs2(i.d.instr)
      && i.e.rd1 == i.before.regs[i.e.rs1] && i.e.rd2 == i.before.regs[i.e.rs2]
      && i.e.pc == i.before.pc && i.e.pcPlus4 == Behind(i.before.pc)
      && Controls(i.e) && ControlsM(i.m) && (i.m.resultSrc == 2 ==> i.e.op == CU.OP_AUIPC || AlwaysRedirects(i.e))
  {
    hide LoadData, Redirects, CU.MainDecoder, CU.AluDecoder, CU.SignExtend, Alu.Result;
    LinkedStages(prog, h, n);
    DecoderFacts(h(n).d, h(n).e.rd1, h(n).e.rd2);
  }

  lemma IsOrderly(prog: Program, h: History, s: State, t: Tags)
    requires Invariant(prog, h, s, t)
    ensures Orderly(s, t)
  {
  }

  /** Only opcodes 11xxxxx redirect; bubbles and loads do not. */
  lemma NoRedirect(e: RegE, srcA: Word, writeData: Word)
    requires e.op / 0x20 != 3
    ensures !Redirects(e, srcA, writeData)
  {
  }

  lemma JumpsRedirect(e: RegE, srcA: Word, writeData: Word)
    requires AlwaysRedirects(e)
    ensures Redirects(e, srcA, writeData)
  {
  }

  /** Only SrcA and WriteDataE enter execution, not RD1E and RD2E. */
  lemma ExecuteByOperands(e: RegE, x: Word, y: Word, srcA: Word, writeData: Word)
    ensures Execute(e.(rd1 := x, rd2 := y), srcA, writeData) == Execute(e, srcA, writeData)
    ensures Redirects(e.(rd1 := x, rd2 := y), srcA, writeData) == Redirects(e, srcA, writeData)
  {
  }

  /** The sequential registers after the instruction in W. */
  lemma RegistersAfterW(prog: Program, h: History, s: State, t: Tags)
    requires Invariant(prog, h, s, t)
    ensures h(Committed(t)).before.regs == WriteRegister(h(t.retired).before.regs, s.w)
  {
    if t.w.Real? {
      LinkedRegs(prog, h, t.w.n);
      SameWrite(h(t.retired).before.regs, s.w, h(t.w.n).w);
    }
  }

  /** The sequential registers after the instruction in M. */
  lemma RegistersAfterM(prog: Program, h: History, s: State, t: Tags) returns (loaded: Word)
    requires Invariant(prog, h, s, t) && t.m.Real?
    ensures h(t.m.n + 1).before.regs == WriteRegister(h(Committed(t)).before.regs, Writeback(s.m, loaded))
  {
    hide Redirects, Target, LoadData, WriteRegister, StoreData, Decode, Execute, SameEffect, Retire;
    LinkedRegs(prog, h, t.m.n);
    LinkedStages(prog, h, t.m.n);
    StageFields(prog, h, t.m.n);
    loaded := h(t.m.n).w.readData;
    SameRetirement(s.m, h(t.m.n).m, loaded, loaded);
    SameWrite(h(Committed(t)).before.regs, Writeback(s.m, loaded), h(t.m.n).w);
  }

  /** In every reachable state the newest operands are the sequential ones, and each
      operand E is given is, exactly when it is not forwarded from M in place of PC+4. */
  lemma OperandsFreshIff(prog: Program, h: History, s: State, t: Tags)
    requires Invariant(prog, h, s, t) && t.e.Real?
    ensures NewestA(s) == h(t.e.n).e.rd1 && NewestB(s) == h(t.e.n).e.rd2
    ensures SrcA(s) == h(t.e.n).e.rd1 <==> TakesResult(s, s.e.rs1)
    ensures WriteDataE(s) == h(t.e.n).e.rd2 <==> TakesResult(s, s.e.rs2)
  {
    hide WriteRegister, Decode, Execute, Retire, SameEffect, Redirects;
    var regs := h(t.retired).before.regs;
    StageFields(prog, h, t.e.n);
    RegistersAfterW(prog, h, s, t);
    if t.m.Real? {
      var loaded := RegistersAfterM(prog, h, s, t);
      OperandIff(s, s.e.rs1, regs, loaded);
      OperandIff(s, s.e.rs2, regs, loaded);
    } else {
      WriteInW(s, s.e.rs1, regs);
      WriteInW(s, s.e.rs2, regs);
    }
  }

  /** Without AUIPC, a forward from M hands over an ALU result that is the result: never a
      load's address, nor a jump's. */
  lemma ForwardFromM(prog: Program, h: History, s: State, t: Tags)
    requires Invariant(prog, h, s, t) && t.e.Real? && (t.m.Real? ==> h(t.m.n).e.op != CU.OP_AUIPC)
    requires Forward(s.e.rs1, s.m, s.w) == 2 || Forward(s.e.rs2, s.m, s.w) == 2
    ensures t.m.Real? && s.m.resultSrc == 0
  {
    hide IsHistory, HoldsW, HoldsE, HoldsD, HoldsPC, HoldsArch, GapsBehindW;
    if t.m.Real? {
      StageFields(prog, h, t.m.n);
    }
  }

  lemma WriteInW(s: State, rs: Reg, regs: Registers)
    requires !s.m.regWrite
    ensures Operand(s, rs, regs[rs]) == NewestOperand(s, rs, regs[rs]) == WriteRegister(regs, s.w)[rs]
    ensures TakesResult(s, rs)
  {
  }

  // ------------------------------------------------------- signals and order

  /** What the stall and redirect signals say about the slots. */
  lemma Signals(s: State, t: Tags)
    requires Orderly(s, t)
    ensures PCSrcE(s) ==> t.e.Real? && !LoadUseStall(s)
    ensures LoadUseStall(s) ==> t.e.Real? && s.e.memRead
    ensures s.m.memRead ==> t.m.Real? && s.m.resultSrc == 1 && s.m.regWrite && !s.m.memWrite
  {
    hide Redirects;
    if s.e.op / 0x20 != 3 {
      NoRedirect(s.e, SrcA(s), WriteDataE(s));
    }
  }

  /** Order is kept exactly by the cycles that do not flush E while M is held. */
  lemma OrderlyIff(prog: Program, s: State, c: Cached, t: Tags)
    requires Orderly(s, t)
    ensures Orderly(Step(prog, s, c), NextTags(s, c, t)) <==> NothingLost(s, c)
  {
    hide Redirects, CU.MainDecoder, CU.AluDecoder, CU.SignExtend, Alu.Result, WriteRegister, StoreData, LoadDecode,
         Target, PCSrcE;
    Signals(s, t);
    var s' := Step(prog, s, c);
    if !Frozen(s, c) && !PCSrcE(s) && !LoadUseStall(s) {
      DecoderFacts(s.d, s'.e.rd1, s'.e.rd2);
    }
  }

  // ------------------------------------------------------------ one clock cycle

  /** The instruction in M moves to W: W gets its effect exactly when its data is current. */
  lemma WritebackIff(prog: Program, h: History, s: State, c: Cached, n: nat)
    requires IsHistory(prog, h) && SameEffect(s.m, h(n).m) && s.mem == h(n).before.mem && !Frozen(s, c)
    ensures Retire(Writeback(s.m, LoadDecode(FoundData(s, c), s.m.funct3))) == Retire(h(n).w) <==> DataCurrent(s, c)
  {
    hide Decode, Execute, Redirects, Target, Fetch, LoadDecode, LoadData, ReadWord, StoreData;
    StageFields(prog, h, n);
    LinkedStages(prog, h, n);
    SameAccess(s.m, h(n).m, s.mem);
  }

  /** And then registers and memory are the sequential ones after it. */
  lemma ArchAfterM(prog: Program, h: History, s: State, n: nat, w: RegW)
    requires IsHistory(prog, h) && SameEffect(s.m, h(n).m) && Retire(w) == Retire(h(n).w)
    requires WriteRegister(s.regs, s.w) == h(n).before.regs && s.mem == h(n).before.mem
    ensures WriteRegister(WriteRegister(s.regs, s.w), w) == h(n + 1).before.regs
    ensures StoreData(s.m, s.mem) == h(n + 1).before.mem
  {
    hide IsHistory, WriteRegister, StoreData, SameEffect, Retire;
    LinkedRegs(prog, h, n);
    SameAccess(s.m, h(n).m, s.mem);
    SameWrite(h(n).before.regs, w, h(n).w);
  }

  lemma AdvanceToW(prog: Program, h: History, s: State, c: Cached, t: Tags)
    requires IsHistory(prog, h) && InOrder(t) && BubblesInert(s, t) && HoldsM(h, s, t) && HoldsArch(h, s, t)
    requires !Frozen(s, c)
    ensures var s', t' := Step(prog, s, c), NextTags(s, c, t);
      && (HoldsW(h, s', t') <==> DataCurrent(s, c))
      && (DataCurrent(s, c) ==> HoldsArch(h, s', t'))
  {
    hide IsHistory, Retire, WriteRegister, StoreData, LoadDecode, SameEffect, DataCurrent, NextPC, NextD, NextE, NextM,
         PCSrcE, LoadUseStall, FoundData;
    var s' := Step(prog, s, c);
    if t.m.Real? {
      WritebackIff(prog, h, s, c, t.m.n);
      if DataCurrent(s, c) {
        ArchAfterM(prog, h, s, t.m.n, s'.w);
      }
    } else {
      NoAccessInM(s, c);
      NoStore(s.m, s.mem);
      NoWrites(WriteRegister(s.regs, s.w), s'.w);
    }
  }

  lemma NoAccessInM(s: State, c: Cached)
    requires !s.m.memRead
    ensures DataCurrent(s, c)
  {
  }

  lemma SameAccess(m: RegM, k: RegM, mem: Memory)
    requires SameEffect(m, k)
    ensures StoreData(m, mem) == StoreData(k, mem)
    ensures k.memRead ==> LoadData(m, mem) == LoadData(k, mem)
  {
    if !k.memWrite {
      NoStore(m, mem);
      NoStore(k, mem);
    }
  }

  lemma NoWrites(regs: Registers, w: RegW)
    requires !w.regWrite
    ensures WriteRegister(regs, w) == regs
  {
  }

  /** An inert instruction reads no register. */
  lemma InertOperands(s: State)
    requires Inert(s.e)
    ensures SrcA(s) == NewestA(s) && WriteDataE(s) == NewestB(s) && !PCSrcE(s) && !s.e.memRead
    ensures ForwardsResult(s) && SuccessorRight(s)
  {
    NoRedirect(s.e, SrcA(s), WriteDataE(s));
  }

  /** M gets the effect of the instruction in E exactly when the forwards give it. */
  lemma AdvanceToM(prog: Program, h: History, s: State, c: Cached, t: Tags)
    requires Invariant(prog, h, s, t) && !Frozen(s, c)
    ensures HoldsM(h, Step(prog, s, c), NextTags(s, c, t)) <==> ForwardsResult(s)
  {
    hide Decode, Execute, Redirects, Target, Fetch, LoadDecode, ReadWord, WriteLanes, WriteRegister, SameEffect,
         SrcA, WriteDataE, NewestA, NewestB;
    if t.e.Real? {
      var i := h(t.e.n);
      OperandsFreshIff(prog, h, s, t);
      LinkedStages(prog, h, t.e.n);
      ExecuteByOperands(i.e, s.e.rd1, s.e.rd2, SrcA(s), WriteDataE(s));
      ExecuteByOperands(i.e, s.e.rd1, s.e.rd2, i.e.rd1, i.e.rd2);
    } else {
      InertOperands(s);
    }
  }

  /** The PC that follows E is the sequential one exactly when its successor is right. */
  lemma SuccessorIff(prog: Program, h: History, s: State, t: Tags)
    requires Invariant(prog, h, s, t) && t.e.Real?
    ensures Successor(s.e, PCSrcE(s), s.e.rd1) == h(t.e.n + 1).before.pc <==> SuccessorRight(s)
    ensures s.e.pcPlus4 == Behind(h(t.e.n).before.pc)
  {
    hide Decode, Execute, Redirects, Fetch, LoadDecode, ReadWord, WriteLanes, WriteRegister,
         PCSrcE, NewestA, NewestB;
    var i := h(t.e.n);
    OperandsFreshIff(prog, h, s, t);
    StageFields(prog, h, t.e.n);
    LinkedStages(prog, h, t.e.n);
    LinkedRegs(prog, h, t.e.n);
    ExecuteByOperands(i.e, s.e.rd1, s.e.rd2, i.e.rd1, i.e.rd2);
  }

  lemma TargetByBase(e: RegE, x: Word)
    ensures Target(e.(rd1 := x)) == Target(e) <==> (e.jump ==> x == e.rd1)
  {
  }

  /** When the decision to redirect is right, the target is exactly when JALR's unforwarded
      base is its newest value. */
  lemma TargetIff(prog: Program, h: History, s: State, t: Tags)
    requires Invariant(prog, h, s, t) && t.e.Real?
    requires PCSrcE(s) && Redirects(s.e, NewestA(s), NewestB(s))
    ensures Target(s.e) == h(t.e.n + 1).before.pc <==> (s.e.jump ==> NewestA(s) == s.e.rd1)
  {
    hide Invariant, Redirects, Target, PCSrcE, NewestA, NewestB;
    SuccessorIff(prog, h, s, t);
    TargetByBase(s.e, NewestA(s));
  }

  lemma DecodeByRegisters(d: RegD, x: Word, y: Word, rd1: Word, rd2: Word)
    ensures Decode(d, rd1, rd2) == Decode(d, x, y).(rd1 := rd1, rd2 := rd2)
    ensures Decode(d, x, y).pc == d.pc
    ensures Decode(d, x, y).rs1 == CU.Rs1(d.instr) && Decode(d, x, y).rs2 == CU.Rs2(d.instr)
  {
  }

  lemma AdvanceToE(prog: Program, h: History, s: State, t: Tags, s': State, t': Tags)
    requires IsHistory(prog, h) && InOrder(t) && HoldsD(prog, h, s, t) && (t.e.Real? ==> Straight(h, t.e.n))
    requires t'.e == t.d && s'.regs == h(t'.retired).before.regs
    requires s'.e == Decode(s.d, s'.regs[CU.Rs1(s.d.instr)], s'.regs[CU.Rs2(s.d.instr)])
    ensures HoldsE(h, s', t')
  {
    hide Decode, Execute, Redirects, Target, LoadData, Writeback, Fetch;
    if t.d.Real? {
      var i := h(t.d.n);
      LinkedStages(prog, h, t.d.n);
      var a1, a2 := CU.Rs1(s.d.instr), CU.Rs2(s.d.instr);
      DecodeByRegisters(s.d, i.before.regs[a1], i.before.regs[a2], s'.regs[a1], s'.regs[a2]);
    }
  }

  lemma AdvanceToD(prog: Program, h: History, s: State, t: Tags, s': State, t': Tags)
    requires InOrder(t) && HoldsD(prog, h, s, t) && HoldsPC(h, s, t) && (t.e.Real? ==> Straight(h, t.e.n))
    requires t'.d == Real(t.fetch) && t'.e == t.d
    requires s'.d == Fetch(prog, s.pc) && s'.pc == Wrap(s.pc + 4)
    ensures HoldsD(prog, h, s', t') && HoldsPC(h, s', t')
  {
    hide Wrap, IsHistory;
    assert s.pc == if t.d.Real? then Behind(h(t.d.n).before.pc) else h(t.fetch).before.pc;
  }

  /** A cycle with no stall, flush or freeze keeps the invariant. */
  lemma NormalCycle(prog: Program, h: History, s: State, c: Cached, t: Tags)
    requires Invariant(prog, h, s, t) && CycleOk(s, c)
    requires !Frozen(s, c) && !PCSrcE(s) && !LoadUseStall(s)
    ensures Invariant(prog, h, Step(prog, s, c), NextTags(s, c, t))
  {
    hide StoreData, WriteRegister, Decode, Execute, Retire, SameEffect, Controls, ControlsM, PCSrcE, LoadUseStall,
         Frozen, NextW, SrcA, WriteDataE, Gaps, GapsBehindW, AlwaysRedirects, ForwardsResult, SuccessorRight,
         DataCurrent, IsHistory, BubblesInert, HoldsM, HoldsE, HoldsW;
    var s', t' := Step(prog, s, c), NextTags(s, c, t);
    OrderlyIff(prog, s, c, t);
    AdvanceToW(prog, h, s, c, t);
    AdvanceToM(prog, h, s, c, t);
    GapsMove(prog, h, s, c, t);
    if t.e.Real? {
      StaysStraight(prog, h, s, t);
      PassedOn(s.e, SrcA(s), WriteDataE(s), s.d, s'.regs[CU.Rs1(s.d.instr)], s'.regs[CU.Rs2(s.d.instr)]);
      NormalGaps(h, s, t, s', t');
    } else {
      NoGaps(h, s', t');
    }
    AdvanceToE(prog, h, s, t, s', t');
    AdvanceToD(prog, h, s, t, s', t');
  }

  lemma NothingInE(h: History, s: State, t: Tags)
    requires t.e.Bubble?
    ensures HoldsE(h, s, t)
  {
  }

  lemma NoGaps(h: History, s: State, t: Tags)
    requires t.m.Bubble?
    ensures Gaps(h, s, t)
  {
  }

  /** E does not redirect and its successor is right, so the execution goes straight on. */
  lemma StaysStraight(prog: Program, h: History, s: State, t: Tags)
    requires Invariant(prog, h, s, t) && t.e.Real? && SuccessorRight(s) && !PCSrcE(s)
    ensures FallsThrough(h, t.e.n)
  {
    hide SuccessorRight, PCSrcE, IsHistory, Orderly, HoldsW, HoldsM, HoldsArch, HoldsD, HoldsPC, Gaps, GapsBehindW;
    SuccessorIff(prog, h, s, t);
    NoJump(s);
  }

  lemma NoJump(s: State)
    requires !PCSrcE(s)
    ensures !AlwaysRedirects(s.e)
  {
    hide Redirects, AlwaysRedirects;
    if AlwaysRedirects(s.e) {
      JumpsRedirect(s.e, SrcA(s), WriteDataE(s));
    }
  }

  /** Nothing comes between neighbours on their way from M and E to W and M. */
  lemma GapsMove(prog: Program, h: History, s: State, c: Cached, t: Tags)
    requires Invariant(prog, h, s, t) && !Frozen(s, c)
    ensures GapsBehindW(h, NextTags(s, c, t))
  {
    hide PCSrcE, LoadUseStall, HoldsW, HoldsArch, HoldsD, HoldsPC, SameEffect, BubblesInert;
    if t.m.Real? && t.e.Real? {
      NeighboursAdjacent(prog, h, s, t);
    }
  }

  lemma NeighboursAdjacent(prog: Program, h: History, s: State, t: Tags)
    requires Invariant(prog, h, s, t) && t.m.Real? && t.e.Real?
    ensures t.e.n == t.m.n + 1 && Adjacent(h, t.m.n)
  {
    hide HoldsW, HoldsArch, HoldsD, HoldsPC, BubblesInert, GapsBehindW;
    StageFields(prog, h, t.m.n);
  }

  lemma NormalGaps(h: History, s: State, t: Tags, s': State, t': Tags)
    requires t.e.Real? && t.d.Real? && FallsThrough(h, t.e.n) && t'.m == t.e && t'.e == t.d && !LoadUseStall(s)
    requires s'.m.resultSrc == s.e.resultSrc && s'.m.rd == s.e.rd
    requires s'.e.rs1 == CU.Rs1(s.d.instr) && s'.e.rs2 == CU.Rs2(s.d.instr)
    ensures Gaps(h, s', t')
  {
  }

  lemma PassedOn(e: RegE, a: Word, b: Word, d: RegD, x: Word, y: Word)
    ensures var m := Execute(e, a, b); m.resultSrc == e.resultSrc && m.rd == e.rd && m.memRead == e.memRead
    ensures Decode(d, x, y).rs1 == CU.Rs1(d.instr) && Decode(d, x, y).rs2 == CU.Rs2(d.instr)
  {
  }

  lemma StoredTwice(regs: Registers, w: RegW)
    ensures WriteRegister(WriteRegister(regs, w), w) == WriteRegister(regs, w)
  {
  }

  /** Behind a load in M every forward gives the result. */
  lemma LoadInM(s: State)
    requires s.m.resultSrc == 1
    ensures SrcA(s) == NewestA(s) && WriteDataE(s) == NewestB(s)
    ensures ForwardsResult(s) && (!PCSrcE(s) ==> SuccessorRight(s))
  {
    hide Redirects, Target, Execute;
  }

  /** A frozen cycle only repeats W's register write. */
  lemma FrozenCycle(prog: Program, h: History, s: State, c: Cached, t: Tags)
    requires Invariant(prog, h, s, t) && Frozen(s, c)
    ensures NothingLost(s, c) <==> CycleOk(s, c)
    ensures NothingLost(s, c) ==>
      && Step(prog, s, c) == s.(regs := WriteRegister(s.regs, s.w))
      && NextTags(s, c, t) == t
      && Invariant(prog, h, Step(prog, s, c), NextTags(s, c, t))
  {
    hide Redirects, Target, LoadDecode, WriteRegister, Decode, Execute, Retire, Fetch, ForwardsResult, SuccessorRight,
         SrcA, WriteDataE;
    Signals(s, t);
    LoadInM(s);
    NoStore(s.m, s.mem);
    StoredTwice(s.regs, s.w);
  }

  /** A load-use stall holds D and sends a bubble into E. */
  lemma StallCycle(prog: Program, h: History, s: State, c: Cached, t: Tags)
    requires Invariant(prog, h, s, t) && CycleOk(s, c)
    requires !Frozen(s, c) && !PCSrcE(s) && LoadUseStall(s)
    ensures Invariant(prog, h, Step(prog, s, c), NextTags(s, c, t))
  {
    hide StoreData, WriteRegister, Execute, Retire, SameEffect, Fetch, SrcA, WriteDataE, PCSrcE, LoadUseStall, Frozen,
         NextW, IsHistory, BubblesInert, HoldsM, HoldsE, HoldsW, Gaps, GapsBehindW, AlwaysRedirects, ForwardsResult,
         SuccessorRight, DataCurrent;
    var s', t' := Step(prog, s, c), NextTags(s, c, t);
    OrderlyIff(prog, s, c, t);
    Signals(s, t);
    AdvanceToW(prog, h, s, c, t);
    AdvanceToM(prog, h, s, c, t);
    GapsMove(prog, h, s, c, t);
    StaysStraight(prog, h, s, t);
    StalledNames(prog, h, s, t);
    PassedOn(s.e, SrcA(s), WriteDataE(s), s.d, 0, 0);
    StallGaps(h, s, t, s', t');
    NothingInE(h, s', t');
  }

  /** A stalled instruction names what the load in E writes. */
  lemma StalledNames(prog: Program, h: History, s: State, t: Tags)
    requires IsHistory(prog, h) && HoldsD(prog, h, s, t) && t.e.Real? && t.d.Real? && Straight(h, t.e.n)
    requires LoadUseStall(s)
    ensures Names(h(t.e.n + 1), s.e.rd)
  {
    hide IsHistory;
    StageFields(prog, h, t.e.n + 1);
  }

  lemma StallGaps(h: History, s: State, t: Tags, s': State, t': Tags)
    requires t.e.Real? && FallsThrough(h, t.e.n) && t'.m == t.e && t'.e == Bubble
    requires s'.m.memRead && s'.m.rd == s.e.rd && Names(h(t.e.n + 1), s.e.rd)
    ensures Gaps(h, s', t')
  {
  }

  /** A redirect sends bubbles into D and E and fetches the sequential successor. */
  lemma RedirectCycle(prog: Program, h: History, s: State, c: Cached, t: Tags)
    requires Invariant(prog, h, s, t) && CycleOk(s, c)
    requires !Frozen(s, c) && PCSrcE(s)
    ensures Invariant(prog, h, Step(prog, s, c), NextTags(s, c, t))
  {
    hide Target, LoadDecode, StoreData, WriteRegister, Decode, Execute, Retire, SameEffect, Fetch,
         SrcA, WriteDataE, NewestA, NewestB, Redirects;
    OrderlyIff(prog, s, c, t);
    Signals(s, t);
    AdvanceToW(prog, h, s, c, t);
    AdvanceToM(prog, h, s, c, t);
    SuccessorIff(prog, h, s, t);
    GapsMove(prog, h, s, c, t);
    if s.e.op / 0x20 != 3 {
      NoRedirect(s.e, SrcA(s), WriteDataE(s));
    }
  }

  /** One cycle keeps the invariant, whatever it does. */
  lemma CycleKeeps(prog: Program, h: History, s: State, c: Cached, t: Tags)
    requires Invariant(prog, h, s, t) && CycleOk(s, c)
    ensures Invariant(prog, h, Step(prog, s, c), NextTags(s, c, t))
  {
    hide Invariant, Step, NextTags, Frozen, PCSrcE, LoadUseStall, ForwardsResult, SuccessorRight, DataCurrent;
    if Frozen(s, c) {
      FrozenCycle(prog, h, s, c, t);
    } else if PCSrcE(s) {
      RedirectCycle(prog, h, s, c, t);
    } else if LoadUseStall(s) {
      StallCycle(prog, h, s, c, t);
    } else {
      NormalCycle(prog, h, s, c, t);
    }
  }

  /** After a cycle in which E's successor is wrong, E or the PC is off the execution. */
  lemma WrongSuccessorShows(prog: Program, h: History, s: State, c: Cached, t: Tags)
    requires Invariant(prog, h, s, t) && !Frozen(s, c) && !SuccessorRight(s)
    ensures var s', t' := Step(prog, s, c), NextTags(s, c, t);
      !HoldsPC(h, s', t') || !HoldsE(h, s', t')
  {
    hide LoadDecode, StoreData, WriteRegister, Execute, Retire, SameEffect, SrcA, WriteDataE, NewestA, NewestB,
         Redirects, Decode, SuccessorRight, HoldsW, HoldsM, HoldsE, HoldsArch;
    Signals(s, t);
    if t.e.Bubble? {
      InertOperands(s);
    } else {
      SuccessorIff(prog, h, s, t);
      if LoadUseStall(s) {
        LoadGoesOn(s);
      } else if !PCSrcE(s) {
        OffTheExecution(prog, h, s, c, t);
      }
    }
  }

  lemma OffTheExecution(prog: Program, h: History, s: State, c: Cached, t: Tags)
    requires IsHistory(prog, h) && InOrder(t) && HoldsD(prog, h, s, t) && t.e.Real? && !Straight(h, t.e.n)
    requires !Frozen(s, c) && !PCSrcE(s) && !LoadUseStall(s)
    ensures !HoldsE(h, Step(prog, s, c), NextTags(s, c, t))
  {
    hide LoadDecode, StoreData, WriteRegister, Execute, PCSrcE, SrcA, WriteDataE, Decode;
    var s' := Step(prog, s, c);
    StageFields(prog, h, t.e.n + 1);
    DecodeByRegisters(s.d, 0, 0, s'.regs[CU.Rs1(s.d.instr)], s'.regs[CU.Rs2(s.d.instr)]);
  }

  lemma LoadGoesOn(s: State)
    requires s.e.op == 3
    ensures SuccessorRight(s)
  {
    NoRedirect(s.e, SrcA(s), WriteDataE(s));
    NoRedirect(s.e, NewestA(s), NewestB(s));
  }

  /** Exactly the cycles that meet the conditions keep the invariant. */
  lemma CycleKeepsIff(prog: Program, h: History, s: State, c: Cached, t: Tags)
    requires Invariant(prog, h, s, t)
    ensures Invariant(prog, h, Step(prog, s, c), NextTags(s, c, t)) <==> CycleOk(s, c)
  {
    hide Step, NextTags, PCSrcE, LoadUseStall, ForwardsResult, SuccessorRight, DataCurrent, HoldsE, HoldsPC, HoldsM,
         HoldsW, HoldsD, HoldsArch, Gaps, GapsBehindW, InOrder, BubblesInert, Controls, ControlsM, IsHistory, Frozen;
    OrderlyIff(prog, s, c, t);
    if CycleOk(s, c) {
      CycleKeeps(prog, h, s, c, t);
    } else if Frozen(s, c) {
      FrozenCycle(prog, h, s, c, t);
    } else {
      AdvanceToW(prog, h, s, c, t);
      AdvanceToM(prog, h, s, c, t);
      if !SuccessorRight(s) {
        WrongSuccessorShows(prog, h, s, c, t);
      }
    }
  }

  // ------------------------------------------------------------ lost instructions

  /** Instruction n is in no stage and will not be fetched: everything younger than E is
      past it. */
  predicate Gone(t: Tags, n: nat) {
    && n < t.fetch && (t.d.Real? ==> t.d.n > n) && (t.e.Real? ==> t.e.n > n)
    && t.m != Real(n) && t.w != Real(n)
  }

  /** What is gone stays gone, whatever the pipeline does. */
  lemma GoneKept(s: State, c: Cached, t: Tags, n: nat)
    requires Gone(t, n)
    ensures Gone(NextTags(s, c, t), n)
  {
  }

  /** A flush of E while M is held loses the instruction in E, and order with it. */
  lemma FlushWhileFrozenLoses(prog: Program, s: State, c: Cached, t: Tags)
    requires Orderly(s, t) && !NothingLost(s, c)
    ensures t.e.Real? && Gone(NextTags(s, c, t), t.e.n)
    ensures !InOrder(NextTags(s, c, t))
  {
    Signals(s, t);
  }
}
