/** The five-stage pipeline of rtl/risc_v.sv as a function from the state just
    after one rising clock edge to the state just after the next. */
module Pipeline {
  import opened Words
  import opened ControlUnit
  import opened DataMemory
  import Alu

  type Registers = r: seq<Word> | |r| == 32 witness seq(32, _ => 0)
  type Program = Word -> Word

  datatype RegD = RegD(instr: Word, pc: Word, pcPlus4: Word)

  datatype RegE = RegE(
    regWrite: bool, resultSrc: U2, memWrite: bool, memRead: bool, jump: bool, branch: bool,
    aluControl: U4, aluSrc: bool, rd1: Word, rd2: Word, pc: Word, rs1: Reg, rs2: Reg, rd: Reg,
    immExt: Word, pcPlus4: Word, funct3: U3, op: U7)

  datatype RegM = RegM(
    regWrite: bool, resultSrc: U2, memWrite: bool, memRead: bool,
    aluResult: Word, writeData: Word, rd: Reg, pcPlus4: Word, funct3: U3)

  datatype RegW = RegW(
    regWrite: bool, resultSrc: U2, aluResult: Word, readData: Word,
    rd: Reg, pcPlus4: Word, funct3: U3)

  const CLEAR_D := RegD(0, 0, 0)
  const CLEAR_E := RegE(false, 0, false, false, false, false, 0, false, 0, 0, 0, 0, 0, 0, 0, 0, 0, 0)

  datatype State = State(pc: Word, regs: Registers, mem: Memory, d: RegD, e: RegE, m: RegM, w: RegW)

  /** What the cache drives during a cycle: its hit output and the word RDCache
      that FoundData takes when hit is high. */
  datatype Cached = Cached(hit: bool, data: Word)

  // -------------------------------------------------------------- stage logic

  function Fetch(prog: Program, pc: Word): RegD {
    RegD(prog(pc), pc, Wrap(pc + 4))
  }

  /** Decode: the inputs of reg_file_e for the instruction in D. */
  function Decode(d: RegD, rd1: Word, rd2: Word): RegE {
    var op, funct3 := Opcode(d.instr), Funct3(d.instr);
    var c := MainDecoder(op);
    RegE(c.regWrite, c.resultSrc, c.memWrite, c.memRead, c.jump, c.branch,
         AluDecoder(op, funct3, Funct7Bit5(d.instr), c.aluOp), c.aluSrc, rd1, rd2, d.pc,
         Rs1(d.instr), Rs2(d.instr), Rd(d.instr), SignExtend(d.instr, c.immSrc), d.pcPlus4, funct3, op)
  }

  function SrcB(e: RegE, writeData: Word): Word {
    if e.aluSrc then e.immExt else writeData
  }

  /** Execute: the inputs of reg_file_m, given SrcA and WriteDataE. */
  function Execute(e: RegE, srcA: Word, writeData: Word): RegM {
    RegM(e.regWrite, e.resultSrc, e.memWrite, e.memRead,
         Alu.Result(srcA, SrcB(e, writeData), e.aluControl), writeData, e.rd, e.pcPlus4, e.funct3)
  }

  /** PCSrcE, given SrcA and WriteDataE. */
  predicate Redirects(e: RegE, srcA: Word, writeData: Word) {
    Alu.PCSrc(e.op, e.funct3, Alu.FlagsOf(srcA, SrcB(e, writeData), e.aluControl), e.branch)
  }

  /** PCTargetE: JALR adds to RD1E itself, not to the forwarded SrcA. */
  function Target(e: RegE): Word {
    Wrap((if e.jump then e.rd1 else e.pc) + e.immExt)
  }

  /** ReadDataM when the word found is the data memory's. */
  function LoadData(m: RegM, mem: Memory): Word {
    LoadDecode(ReadWord(mem, AddressOf(m.aluResult)), m.funct3)
  }

  function StoreData(m: RegM, mem: Memory): Memory {
    WriteLanes(mem, AddressOf(m.aluResult), m.writeData, WriteEnables(m.funct3, m.memWrite))
  }

  lemma NoStore(m: RegM, mem: Memory)
    requires !m.memWrite
    ensures StoreData(m, mem) == mem
  {
  }

  function Writeback(m: RegM, readData: Word): RegW {
    RegW(m.regWrite, m.resultSrc, m.aluResult, readData, m.rd, m.pcPlus4, m.funct3)
  }

  /** ResultW. */
  function Result(w: RegW): Word {
    if w.resultSrc >= 2 then w.pcPlus4 else if w.resultSrc == 1 then w.readData else w.aluResult
  }

  /** The falling-edge write of rtl/reg_file/reg_file.sv; register 0 is never written. */
  function WriteRegister(regs: Registers, w: RegW): Registers {
    if w.regWrite && w.rd != 0 then regs[w.rd := Result(w)] else regs
  }

  /** What an instruction does to the register file when it leaves W. */
  datatype Write = NoWrite | Write(rd: Reg, value: Word)
  datatype Retirement = Retirement(pcPlus4: Word, write: Write)

  function Retire(w: RegW): Retirement {
    Retirement(w.pcPlus4, if w.regWrite && w.rd != 0 then Write(w.rd, Result(w)) else NoWrite)
  }

  // -------------------------------------------------------------- hazard unit

  /** rtl/hazard_unit/subunits/forward.sv. */
  function Forward(rs: Reg, m: RegM, w: RegW): U2 {
    if rs == m.rd && m.regWrite && rs != 0 then 2
    else if rs == w.rd && w.regWrite && rs != 0 then 1
    else 0
  }

  /** The operand multiplexers of rtl/risc_v.sv:271-272. */
  function Operand(s: State, rs: Reg, rd: Word): Word {
    var f := Forward(rs, s.m, s.w);
    if f >= 2 then s.m.aluResult else if f == 1 then Result(s.w) else rd
  }

  function SrcA(s: State): Word { Operand(s, s.e.rs1, s.e.rd1) }

  function WriteDataE(s: State): Word { Operand(s, s.e.rs2, s.e.rd2) }

  predicate PCSrcE(s: State) { Redirects(s.e, SrcA(s), WriteDataE(s)) }

  /** rtl/hazard_unit/subunits/lwstall.sv: register fields are compared whether
      or not the instruction reads them, and x0 is not excepted. */
  predicate LoadUseStall(s: State) {
    s.e.resultSrc % 2 == 1 && (s.e.rd == Rs1(s.d.instr) || s.e.rd == Rs2(s.d.instr))
  }

  /** CacheStall of rtl/hazard_unit/hazard_unit.sv:66. */
  predicate Frozen(s: State, c: Cached) { s.m.memRead && !c.hit }

  /** FoundData of rtl/risc_v.sv:417. */
  function FoundData(s: State, c: Cached): Word {
    if c.hit then c.data else ReadWord(s.mem, AddressOf(s.m.aluResult))
  }

  // --------------------------------------------------------------- clock edge

  function NextPC(s: State, c: Cached): Word {
    if LoadUseStall(s) || Frozen(s, c) then s.pc
    else if PCSrcE(s) then Target(s.e)
    else Wrap(s.pc + 4)
  }

  function NextD(prog: Program, s: State, c: Cached): RegD {
    if PCSrcE(s) then CLEAR_D
    else if LoadUseStall(s) || Frozen(s, c) then s.d
    else Fetch(prog, s.pc)
  }

  function NextE(s: State, c: Cached, regs: Registers): RegE {
    if PCSrcE(s) || LoadUseStall(s) then CLEAR_E
    else if Frozen(s, c) then s.e
    else Decode(s.d, regs[Rs1(s.d.instr)], regs[Rs2(s.d.instr)])
  }

  function NextM(s: State, c: Cached): RegM {
    if Frozen(s, c) then s.m else Execute(s.e, SrcA(s), WriteDataE(s))
  }

  function NextW(s: State, c: Cached): RegW {
    if Frozen(s, c) then s.w else Writeback(s.m, LoadDecode(FoundData(s, c), s.m.funct3))
  }

  /** One clock cycle: W writes the register file at the falling edge, then every
      register latches at the rising edge. */
  function Step(prog: Program, s: State, c: Cached): State {
    var regs := WriteRegister(s.regs, s.w);
    State(NextPC(s, c), regs, StoreData(s.m, s.mem),
          NextD(prog, s, c), NextE(s, c, regs), NextM(s, c), NextW(s, c))
  }
}
