/** The clocked modules as objects: each holds its flip-flops or array, and its edge
    methods update them in place. Cpu.Tick is one cycle of rtl/risc_v.sv. */
module Hardware {
  import opened Words
  import opened DataMemory
  import opened Pipeline
  import opened S = System
  import CU = ControlUnit
  import Cache

  /** rtl/pc/pc.sv; the enable is active low. */
  class Pc {
    var pc: Word

    constructor (start: Word)
      ensures pc == start
    {
      pc := start;
    }

    method RisingEdge(rst: bool, en: bool, next: Word)
      modifies this
      ensures pc == if rst then 0 else if en then old(pc) else next
    {
      if rst {
        pc := 0;
      } else if !en {
        pc := next;
      }
    }
  }

  /** rtl/reg_file_d/reg_file_d.sv; clear beats hold. */
  class RegFileD {
    var q: RegD

    constructor ()
      ensures q == CLEAR_D
    {
      q := CLEAR_D;
    }

    method RisingEdge(clr: bool, en: bool, d: RegD)
      modifies this
      ensures q == if clr then CLEAR_D else if en then old(q) else d
    {
      if clr {
        q := CLEAR_D;
      } else if !en {
        q := d;
      }
    }
  }

  /** rtl/reg_file_e/reg_file_e.sv; clear beats hold. */
  class RegFileE {
    var q: RegE

    constructor ()
      ensures q == CLEAR_E
    {
      q := CLEAR_E;
    }

    method RisingEdge(clr: bool, en: bool, d: RegE)
      modifies this
      ensures q == if clr then CLEAR_E else if en then old(q) else d
    {
      if clr {
        q := CLEAR_E;
      } else if !en {
        q := d;
      }
    }
  }

  /** rtl/reg_file_m/reg_file_m.sv. */
  class RegFileM {
    var q: RegM

    constructor ()
      ensures q == RegM(false, 0, false, false, 0, 0, 0, 0, 0)
    {
      q := RegM(false, 0, false, false, 0, 0, 0, 0, 0);
    }

    method RisingEdge(en: bool, d: RegM)
      modifies this
      ensures q == if en then old(q) else d
    {
      if !en {
        q := d;
      }
    }
  }

  /** rtl/reg_file_w/reg_file_w.sv. */
  class RegFileW {
    var q: RegW

    constructor ()
      ensures q == RegW(false, 0, 0, 0, 0, 0, 0)
    {
      q := RegW(false, 0, 0, 0, 0, 0, 0);
    }

    method RisingEdge(en: bool, d: RegW)
      modifies this
      ensures q == if en then old(q) else d
    {
      if !en {
        q := d;
      }
    }
  }

  /** rtl/reg_file/reg_file.sv. */
  class RegFile {
    const registers: array<Word>

    ghost predicate Valid() {
      registers.Length == 32
    }

    function Contents(): Registers
      requires Valid()
      reads registers
    {
      registers[..]
    }

    constructor ()
      ensures Valid() && fresh(registers)
      ensures Contents() == seq(32, _ => 0)
    {
      registers := new Word[32](_ => 0);
    }

    method FallingEdge(w: RegW)
      requires Valid()
      modifies registers
      ensures Contents() == WriteRegister(old(Contents()), w)
    {
      if w.regWrite && w.rd != 0 {
        registers[w.rd] := Result(w);
      }
    }
  }

  /** rtl/data_mem/data_mem.sv. */
  class DataMem {
    const ram: array<Byte>

    ghost predicate Valid() {
      ram.Length == SIZE
    }

    function Contents(): Memory
      requires Valid()
      reads ram
    {
      ram[..]
    }

    constructor (image: Memory)
      ensures Valid() && fresh(ram)
      ensures Contents() == image
    {
      ram := new Byte[SIZE](i requires 0 <= i < SIZE => image[i]);
      new;
      assert ram[..] == image;
    }

    function Read(a: Address): Word
      requires Valid()
      reads ram
    {
      ReadWord(Contents(), a)
    }

    method RisingEdge(a: Address, wd: Word, we: Lanes)
      requires Valid()
      modifies ram
      ensures Contents() == WriteLanes(old(Contents()), a, wd, we)
    {
      if we.we0 {
        ram[a] := ByteOf(wd, 0);
      }
      if we.we1 && a + 1 < ram.Length {
        ram[a + 1] := ByteOf(wd, 1);
      }
      if we.we2 && a + 2 < ram.Length {
        ram[a + 2] := ByteOf(wd, 2);
      }
      if we.we3 && a + 3 < ram.Length {
        ram[a + 3] := ByteOf(wd, 3);
      }
    }
  }

  /** rtl/cache/cache.sv. */
  class CacheUnit {
    const lines: array<Cache.Line>
    var hit: bool
    var aTag: Cache.Tag
    var aSet: U3

    ghost predicate Valid() {
      lines.Length == 8
    }

    function Value(): Cache.CacheState
      requires Valid()
      reads this, lines
    {
      Cache.CacheState(lines[..], hit, aTag, aSet)
    }

    constructor ()
      ensures Valid() && fresh(lines)
      ensures Value() == Cache.CacheState(Cache.COLD, false, 0, 0)
    {
      lines := new Cache.Line[8](_ => Cache.Line(false, 0, 0));
      hit, aTag, aSet := false, 0, 0;
      new;
      assert lines[..] == Cache.COLD;
    }

    /** All assignments are nonblocking: the right-hand sides are the values before the edge. */
    method RisingEdge(p: Cache.Port)
      requires Valid()
      modifies this, lines
      ensures Value() == Cache.Edge(old(Value()), p)
    {
      var present := lines[aSet].valid && aTag == lines[aSet].tag;
      if hit {
        if Cache.Any(p.we) {
          lines[aSet] := Cache.Line(true, aTag, Cache.Merge(lines[aSet].data, p.wd, p.we));
        }
      } else if p.memRead {
        lines[aSet] := Cache.Line(true, aTag, p.found);
      }
      hit, aTag, aSet := present, Cache.TagOf(p.a), Cache.SetOf(p.a);
    }
  }

  /** rtl/risc_v.sv, with the instruction memory as a parameter. */
  class Cpu {
    const instrMem: Program
    const pc: Pc
    const d: RegFileD
    const e: RegFileE
    const m: RegFileM
    const w: RegFileW
    const regFile: RegFile
    const dataMem: DataMem
    const cache: CacheUnit

    ghost predicate Valid() {
      regFile.Valid() && dataMem.Valid() && cache.Valid()
    }

    ghost function Repr(): set<object> {
      {pc, d, e, m, w, regFile.registers, dataMem.ram, cache, cache.lines}
    }

    function Value(): System
      requires Valid()
      reads Repr()
    {
      System(State(pc.pc, regFile.Contents(), dataMem.Contents(), d.q, e.q, m.q, w.q), cache.Value())
    }

    constructor (program: Program, start: Word, image: Memory)
      ensures Valid() && fresh(Repr()) && instrMem == program
      ensures Value() == PowerOn(start, image)
    {
      instrMem := program;
      pc := new Pc(start);
      d := new RegFileD();
      e := new RegFileE();
      m := new RegFileM();
      w := new RegFileW();
      regFile := new RegFile();
      dataMem := new DataMem(image);
      cache := new CacheUnit();
    }

    /** One clock cycle with reset low: the falling edge, then everything sampled and
        latched at the rising edge. */
    method Tick()
      requires Valid()
      modifies Repr()
      ensures Valid()
      ensures Value() == S.Tick(instrMem, old(Value()))
    {
      hide S.Tick, Decode, Execute, Redirects, Target,
           ReadWord, WriteLanes, LoadDecode, WriteEnables, Result, WriteRegister, Cache.Edge;
      ghost var y := Value();
      var a1, a2 := CU.Rs1(d.q.instr), CU.Rs2(d.q.instr);

      // Hazard unit and execute stage.
      var srcA := Mux(Forward(e.q.rs1, m.q, w.q), e.q.rd1);
      var writeData := Mux(Forward(e.q.rs2, m.q, w.q), e.q.rd2);
      var pcSrc := Redirects(e.q, srcA, writeData);
      var lwStall := e.q.resultSrc % 2 == 1 && (e.q.rd == a1 || e.q.rd == a2);
      var cacheStall := m.q.memRead && !cache.hit;
      var pcNext := if pcSrc then Target(e.q) else Wrap(pc.pc + 4);

      // Memory stage.
      var a := AddressOf(m.q.aluResult);
      var we := WriteEnables(m.q.funct3, m.q.memWrite);
      var rdMem := dataMem.Read(a);
      var foundData := if cache.hit then cache.lines[cache.aSet].data else rdMem;

      regFile.FallingEdge(w.q);
      Latch(lwStall, cacheStall, pcSrc, pcNext,
            Fetch(instrMem, pc.pc), Decode(d.q, regFile.registers[a1], regFile.registers[a2]),
            Execute(e.q, srcA, writeData), Writeback(m.q, LoadDecode(foundData, m.q.funct3)),
            Cache.Port(we, m.q.memRead, a, m.q.writeData, rdMem));
      StepByParts(instrMem, y, srcA, writeData, pcSrc, lwStall, cacheStall, Value());
    }

    /** The operand multiplexers of rtl/risc_v.sv:271-272. */
    function Mux(forward: U2, rd: Word): Word
      reads m, w
    {
      if forward >= 2 then m.q.aluResult else if forward == 1 then Result(w.q) else rd
    }

    /** The rising edge, under the stalls and flushes of rtl/hazard_unit/hazard_unit.sv:66-73. */
    method Latch(lwStall: bool, cacheStall: bool, pcSrc: bool, pcNext: Word,
                 fetched: RegD, decoded: RegE, executed: RegM, finished: RegW, port: Cache.Port)
      requires Valid()
      modifies pc, d, e, m, w, dataMem.ram, cache, cache.lines
      ensures Valid()
      ensures pc.pc == if lwStall || cacheStall then old(pc.pc) else pcNext
      ensures d.q == if pcSrc then CLEAR_D else if lwStall || cacheStall then old(d.q) else fetched
      ensures e.q == if pcSrc || lwStall then CLEAR_E else if cacheStall then old(e.q) else decoded
      ensures m.q == if cacheStall then old(m.q) else executed
      ensures w.q == if cacheStall then old(w.q) else finished
      ensures dataMem.Contents() == WriteLanes(old(dataMem.Contents()), port.a, port.wd, port.we)
      ensures cache.Value() == Cache.Edge(old(cache.Value()), port)
      ensures regFile.Contents() == old(regFile.Contents())
    {
      hide WriteLanes, Cache.Edge;
      pc.RisingEdge(false, lwStall || cacheStall, pcNext);
      d.RisingEdge(pcSrc, lwStall || cacheStall, fetched);
      e.RisingEdge(pcSrc || lwStall, cacheStall, decoded);
      m.RisingEdge(cacheStall, executed);
      w.RisingEdge(cacheStall, finished);
      dataMem.RisingEdge(port.a, port.wd, port.we);
      cache.RisingEdge(port);
    }
  }

  /** A machine state put together from its next-state parts is the next state. */
  lemma StepByParts(prog: Program, y: System, srcA: Word, writeData: Word,
                    pcSrc: bool, lwStall: bool, cacheStall: bool, z: System)
    requires srcA == SrcA(y.s) && writeData == WriteDataE(y.s)
    requires pcSrc == PCSrcE(y.s) && lwStall == LoadUseStall(y.s) && cacheStall == Frozen(y.s, Drives(y))
    requires z.s.pc == if lwStall || cacheStall then y.s.pc else if pcSrc then Target(y.s.e) else Wrap(y.s.pc + 4)
    requires z.s.regs == WriteRegister(y.s.regs, y.s.w)
    requires z.s.mem == StoreData(y.s.m, y.s.mem)
    requires z.s.d == if pcSrc then CLEAR_D else if lwStall || cacheStall then y.s.d else Fetch(prog, y.s.pc)
    requires z.s.e == if pcSrc || lwStall then CLEAR_E else if cacheStall then y.s.e
                      else Decode(y.s.d, z.s.regs[CU.Rs1(y.s.d.instr)], z.s.regs[CU.Rs2(y.s.d.instr)])
    requires z.s.m == if cacheStall then y.s.m else Execute(y.s.e, srcA, writeData)
    requires z.s.w == if cacheStall then y.s.w
                      else Writeback(y.s.m, LoadDecode(FoundData(y.s, Drives(y)), y.s.m.funct3))
    requires z.cache == Cache.Edge(y.cache, PortOfM(y.s))
    ensures z == S.Tick(prog, y)
  {
    hide Decode, Execute, Redirects, Target, ReadWord, WriteLanes, StoreData, LoadDecode, WriteRegister, Cache.Edge;
  }
}
