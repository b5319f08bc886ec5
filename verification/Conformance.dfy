/** One step of the sequential machine against one RV32I instruction. */
module Conformance {
  import opened Words
  import opened DataMemory
  import opened Pipeline
  import opened Sequential
  import opened Isa
  import opened Encoding
  import CU = ControlUnit
  import Alu

  // ---------------------------------------------------------------------- ALU

  lemma {:induction false} BitSumLow(f: nat -> bool, g: nat -> bool, n: nat)
    requires forall k: nat :: k < n ==> g(k) == f(k + 1)
    ensures BitSum(f, n + 1) == Flag(f(0)) + 2 * BitSum(g, n)
  {
    if n > 0 {
      BitSumLow(f, g, n - 1);
    }
  }

  lemma {:induction false} BitwiseIsBitSum(gate: Gate, x: nat, y: nat, f: nat -> bool, n: nat)
    requires forall k: nat :: k < n ==> f(k) == Apply(gate, Bit(x, k), Bit(y, k))
    ensures Bitwise(gate, x, y, n) == BitSum(f, n)
  {
    hide Apply, BitSum, Pow2;
    if n == 0 {
      NoBits(f, n);
    } else {
      var g := (k: nat) => f(k + 1);
      BitSumLow(f, g, n - 1);
      forall k: nat | k < n - 1
        ensures g(k) == Apply(gate, Bit(x / 2, k), Bit(y / 2, k))
      {
        assert f(k + 1) == Apply(gate, Bit(x, k + 1), Bit(y, k + 1));
      }
      BitwiseIsBitSum(gate, x / 2, y / 2, g, n - 1);
      assert f(0) == Apply(gate, Bit(x, 0), Bit(y, 0));
    }
  }

  lemma NoBits(f: nat -> bool, n: nat)
    requires n == 0
    ensures BitSum(f, n) == 0
  {
  }

  lemma LogicIsBitByBit(gate: Gate, f: (bool, bool) -> bool, x: Word, y: Word)
    requires forall p, q :: f(p, q) == Apply(gate, p, q)
    ensures Alu.Logic(gate, x, y) == BitByBit(f, x, y)
  {
    hide Apply, BitSum, Bitwise;
    BitwiseIsBitSum(gate, x, y, (k: nat) => f(Bit(x, k), Bit(y, k)), 32);
  }

  /** AND, OR and XOR are those of the ISA. */
  lemma LogicConforms(x: Word, y: Word)
    ensures Alu.Result(x, y, 9) == Isa.Value(AND, x, y)
    ensures Alu.Result(x, y, 8) == Isa.Value(OR, x, y)
    ensures Alu.Result(x, y, 5) == Isa.Value(XOR, x, y)
  {
    hide BitByBit, Alu.Logic;
    LogicIsBitByBit(Words.And, (p, q) => p && q, x, y);
    LogicIsBitByBit(Words.Or, (p, q) => p || q, x, y);
    LogicIsBitByBit(Xor, (p, q) => p != q, x, y);
  }

  /** Every ALU operation computes its RV32I value, truncated to 32 bits. */
  lemma AluConforms(op: AluOp, x: Word, y: Word)
    ensures Alu.Result(x, y, AluControl(op)) == Wrap(Value(op, x, y))
  {
    hide Wrap, BitByBit;
    match op
    case ADD => Alu.Add(x, y);
    case SUB => Alu.Sub(x, y);
    case SLT => Alu.SetLess(x, y); WrapSmall(Flag(Signed(x) < Signed(y)));
    case SLTU => Alu.SetLess(x, y); WrapSmall(Flag(x < y));
    case SLL => Alu.Shifts(x, y);
    case SRL => Alu.Shifts(x, y); WrapSmall(x / Pow2(y % 32));
    case SRA => Alu.Shifts(x, y);
    case XOR => LogicConforms(x, y); WrapSmall(Alu.Result(x, y, 5));
    case OR => LogicConforms(x, y); WrapSmall(Alu.Result(x, y, 8));
    case AND => LogicConforms(x, y); WrapSmall(Alu.Result(x, y, 9));
  }

  // --------------------------------------------------------------------- step

  /** Next in terms of the decoded instruction alone. */
  function StepOf(a: Arch, e: RegE): Arch {
    var m := Execute(e, e.rd1, e.rd2);
    Arch(if Redirects(e, e.rd1, e.rd2) then Target(e) else Wrap(a.pc + 4),
         WriteRegister(a.regs, Writeback(m, LoadData(m, a.mem))),
         StoreData(m, a.mem))
  }

  lemma NextIsStepOf(prog: Program, a: Arch)
    ensures Next(prog, a) == StepOf(a, At(prog, a).e)
  {
    hide Execute, Redirects, Target, LoadData, StoreData, WriteRegister;
  }

  /** e is instruction i decoded in state a. */
  predicate Decoded(i: Instr, a: Arch, e: RegE)
    requires WellFormed(i)
  {
    && a.regs[0] == 0
    && e == Intended(i, RegD(0, a.pc, Wrap(a.pc + 4)), a.regs[e.rs1], a.regs[e.rs2], e)
  }

  lemma DecodedAt(prog: Program, a: Arch, i: Instr)
    requires WellFormed(i) && prog(a.pc) == Encode(i) && a.regs[0] == 0
    ensures Decoded(i, a, At(prog, a).e)
  {
    hide Encode, Execute, Redirects, Target, LoadData, CU.MainDecoder, CU.AluDecoder, CU.SignExtend, Intended;
    var d := Fetch(prog, a.pc);
    var e := At(prog, a).e;
    RoundTrip(i, d, e.rd1, e.rd2);
    IntendedByPc(i, d, e.rd1, e.rd2, e);
  }

  lemma IntendedByPc(i: Instr, d: RegD, x: Word, y: Word, e: RegE)
    requires WellFormed(i)
    ensures Intended(i, d, x, y, e) == Intended(i, RegD(0, d.pc, d.pcPlus4), x, y, e)
  {
  }

  lemma OpConforms(i: Instr, a: Arch, e: RegE)
    requires WellFormed(i) && (i.Op? || i.OpImm?) && Decoded(i, a, e)
    ensures StepOf(a, e) == Exec(i, a)
  {
    hide Alu.Result, Alu.FlagsOf, Isa.Value, Wrap, ReadWord, LoadDecode, WriteLanes;
    var y := if i.Op? then a.regs[i.rs2] else Wrap(ImmediateField(i.op, i.imm));
    NoStore(Execute(e, e.rd1, e.rd2), a.mem);
    AluConforms(i.op, a.regs[i.rs1], y);
    if i.OpImm? {
      ShiftAmount(i.op, a.regs[i.rs1], i.imm);
    }
  }

  /** Only the low five bits of an immediate shift amount count. */
  lemma ShiftAmount(op: AluOp, x: Word, imm: int)
    ensures Isa.Value(op, x, Wrap(ImmediateField(op, imm))) == Isa.Value(op, x, Wrap(imm))
  {
    if op.SRA? {
      ModMod(imm + 0x400);
      ModMod(imm);
      assert (imm + 0x400) % 32 == imm % 32;
    }
  }

  lemma ModMod(x: int)
    ensures Wrap(x) % 32 == x % 32
  {
    var q, r := x / TWO_32, Wrap(x);
    assert x == TWO_32 * q + r;
    QuotientUnique(x, 32, 0x800_0000 * q + r / 32, r % 32);
  }

  lemma WriteIff(regs: Registers, r: Reg, x: Word, y: Word)
    ensures regs[r := x] == regs[r := y] <==> x == y
  {
    assert regs[r := x][r] == x && regs[r := y][r] == y;
  }

  lemma UpperConforms(i: Instr, a: Arch, e: RegE)
    requires WellFormed(i) && (i.Lui? || i.Auipc?) && Decoded(i, a, e)
    ensures StepOf(a, e) == Exec(i, a) <==> (i.Auipc? ==> i.rd == 0)
  {
    hide Alu.FlagsOf, ReadWord, LoadDecode, WriteLanes, Wrap;
    NoStore(Execute(e, e.rd1, e.rd2), a.mem);
    WrapSmall(i.imm20 * 0x1000);
    if i.Auipc? {
      NeverFour(a.pc, i.imm20);
      WriteIff(a.regs, i.rd, Wrap(a.pc + 4), Wrap(a.pc + i.imm20 * 0x1000));
    }
  }

  lemma NeverFour(pc: Word, imm20: int)
    requires 0 <= imm20 < 0x10_0000
    ensures Wrap(pc + imm20 * 0x1000) != Wrap(pc + 4)
  {
  }

  /** JAL conforms; JALR does exactly when its target sum is even, since bit 0 is not cleared. */
  lemma JumpConforms(i: Instr, a: Arch, e: RegE)
    requires WellFormed(i) && (i.Jal? || i.Jalr?) && Decoded(i, a, e)
    ensures StepOf(a, e) == Exec(i, a) <==> (i.Jalr? ==> (X(a, i.rs1) + i.offset) % 2 == 0)
  {
    hide Alu.FlagsOf, Alu.Result, ReadWord, LoadDecode, WriteLanes, Wrap;
    NoStore(Execute(e, e.rd1, e.rd2), a.mem);
    WrapAdd(a.pc, i.offset);
    if i.Jalr? {
      WrapAdd(X(a, i.rs1), i.offset);
      WrapEven(X(a, i.rs1) + i.offset);
    }
  }

  lemma WrapAdd(x: int, y: int)
    ensures Wrap(x + Wrap(y)) == Wrap(x + y)
  {
  }

  lemma WrapEven(x: int)
    ensures Wrap(x) % 2 == x % 2
    ensures Wrap(Wrap(x) - Wrap(x) % 2) == Wrap(x) - Wrap(x) % 2
  {
    var q, r := x / TWO_32, Wrap(x);
    assert x == TWO_32 * q + r;
    QuotientUnique(x, 2, TWO_31 * q + r / 2, r % 2);
    WrapSmall(r - r % 2);
  }

  /** When branch op with operands x and y is decided as RV32I says. */
  predicate BranchDecided(op: BranchOp, x: Word, y: Word) {
    op.BLT? || op.BGE? ==> Alu.SignedOrderDecided(x, y)
  }

  lemma BranchDecision(op: BranchOp, x: Word, y: Word)
    ensures (Alu.Taken(BranchFunct3(op), x, y) <==> Decides(op, x, y)) <==> BranchDecided(op, x, y)
  {
    hide Alu.Taken;
    Alu.EqualityAndUnsignedBranches(x, y);
    Alu.SignedBranches(x, y);
  }

  /** A branch conforms exactly when it is decided correctly or jumps to the next instruction. */
  lemma BranchConforms(i: Instr, a: Arch, e: RegE)
    requires WellFormed(i) && i.Branch? && Decoded(i, a, e)
    ensures StepOf(a, e) == Exec(i, a) <==> BranchDecided(i.bop, X(a, i.rs1), X(a, i.rs2)) || i.offset == 4
  {
    hide Alu.FlagsOf, Alu.Result, Alu.PCSrc, ReadWord, LoadDecode, WriteLanes;
    NoStore(Execute(e, e.rd1, e.rd2), a.mem);
    BranchDecision(i.bop, a.regs[i.rs1], a.regs[i.rs2]);
    WrapAdd(a.pc, i.offset);
    OffsetFour(a.pc, i.offset);
  }

  lemma OffsetFour(pc: Word, offset: int)
    requires -0x1000 <= offset < 0x1000
    ensures Wrap(pc + offset) == Wrap(pc + 4) <==> offset == 4
  {
  }

  // --------------------------------------------------------- loads and stores

  lemma AddressConforms(a: Arch, rs1: Reg, offset: int)
    requires a.regs[0] == 0
    ensures AddressOf(Alu.Result(a.regs[rs1], Wrap(offset), 0)) == DataAddress(a, rs1, offset)
  {
    var x := a.regs[rs1];
    WrapAdd(x, offset);
    var q, r := (x + offset) / TWO_32, Wrap(x + offset);
    assert x + offset == TWO_32 * q + r;
    QuotientUnique(x + offset, SIZE, 0x8000 * q + r / SIZE, r % SIZE);
  }

  lemma LoadValueConforms(op: LoadOp, m: Memory, a: Address)
    ensures LoadDecode(ReadWord(m, a), LoadFunct3(op)) == Wrap(LoadValue(op, m, a))
  {
    hide ReadWord, LoadDecode, SignedBytes;
    LoadReads(m, a, LoadFunct3(op));
    LittleEndianUpTo4(m, a);
  }

  lemma LoadConforms(i: Instr, a: Arch, e: RegE)
    requires WellFormed(i) && i.Load? && Decoded(i, a, e) && InRange(i, a)
    ensures StepOf(a, e) == Exec(i, a)
  {
    hide Alu.FlagsOf, Alu.Result, ReadWord, LoadDecode, WriteLanes, LoadValue, AddressOf, DataAddress, Wrap;
    NoStore(Execute(e, e.rd1, e.rd2), a.mem);
    AddressConforms(a, i.rs1, i.offset);
    LoadValueConforms(i.lop, a.mem, DataAddress(a, i.rs1, i.offset));
  }

  lemma StoreValueConforms(op: StoreOp, m: Memory, a: Address, wd: Word)
    requires a + SizeOf(op) <= SIZE
    ensures WriteLanes(m, a, wd, WriteEnables(StoreFunct3(op), true)) == PutBytes(m, a, wd, SizeOf(op))
  {
    PutUpTo4(m, a, wd);
  }

  lemma PutUpTo4(m: Memory, a: nat, wd: Word)
    ensures a + 1 <= SIZE ==> PutBytes(m, a, wd, 1) == m[a := ByteOf(wd, 0)]
    ensures a + 2 <= SIZE ==> PutBytes(m, a, wd, 2) == m[a := ByteOf(wd, 0)][a + 1 := ByteOf(wd, 1)]
    ensures a + 4 <= SIZE ==>
      PutBytes(m, a, wd, 4) ==
        m[a := ByteOf(wd, 0)][a + 1 := ByteOf(wd, 1)][a + 2 := ByteOf(wd, 2)][a + 3 := ByteOf(wd, 3)]
  {
    WordOfBytes(wd);
    DivDiv(wd, 0x100, 0x100);
    DivDiv(wd, 0x1_0000, 0x100);
    if a + 1 <= SIZE {
      var m1 := m[a := ByteOf(wd, 0)];
      assert PutBytes(m, a, wd, 1) == PutBytes(m1, a + 1, wd / 0x100, 0);
      if a + 2 <= SIZE {
        var m2 := m1[a + 1 := ByteOf(wd, 1)];
        assert PutBytes(m, a, wd, 2) == PutBytes(m1, a + 1, wd / 0x100, 1);
        assert PutBytes(m1, a + 1, wd / 0x100, 1) == PutBytes(m2, a + 2, wd / 0x100 / 0x100, 0);
        if a + 4 <= SIZE {
          var m3 := m2[a + 2 := ByteOf(wd, 2)];
          assert PutBytes(m, a, wd, 4) == PutBytes(m1, a + 1, wd / 0x100, 3);
          assert PutBytes(m1, a + 1, wd / 0x100, 3) == PutBytes(m2, a + 2, wd / 0x1_0000, 2);
          assert PutBytes(m2, a + 2, wd / 0x1_0000, 2) == PutBytes(m3, a + 3, wd / 0x100_0000, 1);
        }
      }
    }
  }

  lemma StoreConforms(i: Instr, a: Arch, e: RegE)
    requires WellFormed(i) && i.Store? && Decoded(i, a, e) && InRange(i, a)
    ensures StepOf(a, e) == Exec(i, a)
  {
    hide Alu.FlagsOf, Alu.Result, ReadWord, LoadDecode, WriteLanes, PutBytes, WriteEnables, AddressOf,
         DataAddress, Wrap;
    AddressConforms(a, i.rs1, i.offset);
    StoreValueConforms(i.sop, a.mem, DataAddress(a, i.rs1, i.offset), X(a, i.rs2));
  }

  // ------------------------------------------------------------------ theorem

  /** The instructions and states on which the hardware's step is RV32I's. */
  predicate Supported(i: Instr, a: Arch) {
    match i
    case Auipc(rd, _) => rd == 0
    case Jalr(_, rs1, offset) => (X(a, rs1) + offset) % 2 == 0
    case Branch(op, rs1, rs2, offset) => BranchDecided(op, X(a, rs1), X(a, rs2)) || offset == 4
    case _ => true
  }

  /** ISA conformance: on every state and every well-formed instruction whose accesses
      are in range, the sequential step is the RV32I step exactly when Supported says. */
  lemma StepConformsIff(prog: Program, a: Arch, i: Instr)
    requires WellFormed(i) && prog(a.pc) == Encode(i) && a.regs[0] == 0 && InRange(i, a)
    ensures Next(prog, a) == Exec(i, a) <==> Supported(i, a)
  {
    hide StepOf, Exec, Encode, Decoded, WellFormed, InRange, Next, At, BranchDecided, X;
    NextIsStepOf(prog, a);
    DecodedAt(prog, a, i);
    var e := At(prog, a).e;
    match i
    case Op(_, _, _, _) => OpConforms(i, a, e);
    case OpImm(_, _, _, _) => OpConforms(i, a, e);
    case Lui(_, _) => UpperConforms(i, a, e);
    case Auipc(_, _) => UpperConforms(i, a, e);
    case Jal(_, _) => JumpConforms(i, a, e);
    case Jalr(_, _, _) => JumpConforms(i, a, e);
    case Branch(_, _, _, _) => BranchConforms(i, a, e);
    case Load(_, _, _, _) => LoadConforms(i, a, e);
    case Store(_, _, _, _) => StoreConforms(i, a, e);
  }

  // ------------------------------------------------------------ where it departs

  /** The RV32I step with the three ways in which the hardware departs from it: AUIPC gives
      PC + 4, JALR keeps bit 0 of its target, and a signed branch is decided the other way on
      the operands that the flags misjudge. */
  function Departing(i: Instr, a: Arch): Arch
    requires InRange(i, a)
  {
    var x := Exec(i, a);
    match i
    case Auipc(rd, _) => Set(x, rd, a.pc + 4)
    case Jalr(_, rs1, offset) => Goto(x, x.pc + (X(a, rs1) + offset) % 2)
    case Branch(op, rs1, rs2, offset) =>
      if BranchDecided(op, X(a, rs1), X(a, rs2)) then x
      else Goto(x, a.pc + if Decides(op, X(a, rs1), X(a, rs2)) then 4 else offset)
    case _ => x
  }

  lemma AuipcDeparts(i: Instr, a: Arch, e: RegE)
    requires WellFormed(i) && i.Auipc? && Decoded(i, a, e)
    ensures StepOf(a, e) == Departing(i, a)
    ensures i.rd != 0 ==> Exec(i, a).regs[i.rd] == Wrap(StepOf(a, e).regs[i.rd] + i.imm20 * 0x1000 - 4)
  {
    hide Alu.FlagsOf, ReadWord, LoadDecode, WriteLanes, Wrap;
    NoStore(Execute(e, e.rd1, e.rd2), a.mem);
    WrapAdd(i.imm20 * 0x1000 - 4, a.pc + 4);
  }

  lemma JalrDeparts(i: Instr, a: Arch, e: RegE)
    requires WellFormed(i) && i.Jalr? && Decoded(i, a, e)
    ensures StepOf(a, e) == Departing(i, a)
  {
    hide Alu.FlagsOf, Alu.Result, ReadWord, LoadDecode, WriteLanes, Wrap;
    NoStore(Execute(e, e.rd1, e.rd2), a.mem);
    WrapAdd(X(a, i.rs1), i.offset);
    WrapEven(X(a, i.rs1) + i.offset);
    WrapSmall(Wrap(X(a, i.rs1) + i.offset));
  }

  lemma BranchDeparts(i: Instr, a: Arch, e: RegE)
    requires WellFormed(i) && i.Branch? && Decoded(i, a, e)
    ensures StepOf(a, e) == Departing(i, a)
  {
    hide Alu.FlagsOf, Alu.Result, Alu.PCSrc, ReadWord, LoadDecode, WriteLanes;
    NoStore(Execute(e, e.rd1, e.rd2), a.mem);
    BranchDecision(i.bop, a.regs[i.rs1], a.regs[i.rs2]);
    WrapAdd(a.pc, i.offset);
  }

  /** On every state and every well-formed instruction whose accesses are in range, the
      sequential step is the RV32I step with those departures, and no others. */
  lemma StepDeparts(prog: Program, a: Arch, i: Instr)
    requires WellFormed(i) && prog(a.pc) == Encode(i) && a.regs[0] == 0 && InRange(i, a)
    ensures Next(prog, a) == Departing(i, a)
  {
    hide StepOf, Exec, Encode, Decoded, WellFormed, InRange, Next, At, BranchDecided, X, Goto, Set, Decides, Wrap;
    NextIsStepOf(prog, a);
    DecodedAt(prog, a, i);
    var e := At(prog, a).e;
    match i
    case Op(_, _, _, _) => OpConforms(i, a, e);
    case OpImm(_, _, _, _) => OpConforms(i, a, e);
    case Lui(_, _) => UpperConforms(i, a, e);
    case Auipc(_, _) => AuipcDeparts(i, a, e);
    case Jal(_, _) => JumpConforms(i, a, e);
    case Jalr(_, _, _) => JalrDeparts(i, a, e);
    case Branch(_, _, _, _) => BranchDeparts(i, a, e);
    case Load(_, _, _, _) => LoadConforms(i, a, e);
    case Store(_, _, _, _) => StoreConforms(i, a, e);
  }

  /** The opcodes that the decoder knows. */
  predicate Known(op: U7) {
    || op == 0x03 || op == 0x13 || op == 0x17 || op == 0x23 || op == 0x33 || op == 0x37
    || op == 0x63 || op == 0x67 || op == 0x6F
  }

  /** Any other word writes nothing, and goes to the next instruction unless its opcode has the
      jump pattern 11xx111: then it goes to rs1 plus its upper twelve bits, sign-extended. */
  lemma UnknownOpcode(prog: Program, a: Arch)
    requires !Known(prog(a.pc) % 0x80)
    ensures var w := prog(a.pc);
      var imm := if w < TWO_31 then w / 0x10_0000 else w / 0x10_0000 - 0x1000;
      Next(prog, a) == a.(pc := Wrap(if w % 0x80 == 0x77 || w % 0x80 == 0x7F then a.regs[w / 0x8000 % 0x20] + imm
                                     else a.pc + 4))
  {
    hide Decode, Execute, Redirects, ReadWord, LoadData, WriteLanes, StoreData, Wrap;
    var w, e := prog(a.pc), At(prog, a).e;
    UnknownDecoded(Fetch(prog, a.pc), a.regs[CU.Rs1(w)], a.regs[CU.Rs2(w)]);
    NoStore(Execute(e, e.rd1, e.rd2), a.mem);
    TopTwelve(w);
    WrapAdd(e.rd1, if w < TWO_31 then w / 0x10_0000 else w / 0x10_0000 - 0x1000);
  }

  lemma UnknownDecoded(d: RegD, x: Word, y: Word)
    requires !Known(d.instr % 0x80)
    ensures var e := Decode(d, x, y);
      && !e.regWrite && !e.memWrite && e.jump && e.immExt == CU.SignExtend(d.instr, 0)
      && e.rd1 == x && e.rd2 == y
      && !Execute(e, x, y).memWrite && !Execute(e, x, y).regWrite
      && (Redirects(e, x, y) <==> d.instr % 0x80 == 0x77 || d.instr % 0x80 == 0x7F)
  {
    hide Alu.FlagsOf, Alu.Result, CU.SignExtend;
  }

  lemma TopTwelve(w: Word)
    ensures CU.SignExtend(w, 0) == Wrap(if w < TWO_31 then w / 0x10_0000 else w / 0x10_0000 - 0x1000)
  {
  }
}
