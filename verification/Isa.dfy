/** The base integer instructions of RV32I, after the RISC-V Instruction Set Manual
    Volume I (version 20191213): encodings of sections 2.2 and 2.3, meanings of
    sections 2.4 to 2.6. Stated without reference to the hardware. */
module Isa {
  import opened Words
  import opened DataMemory
  import opened Sequential

  datatype AluOp = ADD | SUB | SLL | SLT | SLTU | XOR | SRL | SRA | OR | AND
  datatype BranchOp = BEQ | BNE | BLT | BGE | BLTU | BGEU
  datatype LoadOp = LB | LH | LW | LBU | LHU
  datatype StoreOp = SB | SH | SW

  datatype Instr =
    | Op(op: AluOp, rd: Reg, rs1: Reg, rs2: Reg)
    | OpImm(op: AluOp, rd: Reg, rs1: Reg, imm: int)
    | Lui(rd: Reg, imm20: int)
    | Auipc(rd: Reg, imm20: int)
    | Jal(rd: Reg, offset: int)
    | Jalr(rd: Reg, rs1: Reg, offset: int)
    | Branch(bop: BranchOp, rs1: Reg, rs2: Reg, offset: int)
    | Load(lop: LoadOp, rd: Reg, rs1: Reg, offset: int)
    | Store(sop: StoreOp, rs1: Reg, rs2: Reg, offset: int)

  predicate IsShift(op: AluOp) { op.SLL? || op.SRL? || op.SRA? }

  predicate Signed12(x: int) { -0x800 <= x < 0x800 }

  /** Immediates in range; SUBI does not exist; jump and branch offsets are even. */
  predicate WellFormed(i: Instr) {
    match i
    case Op(_, _, _, _) => true
    case OpImm(op, _, _, imm) => op != SUB && (if IsShift(op) then 0 <= imm < 32 else Signed12(imm))
    case Lui(_, imm20) => 0 <= imm20 < 0x10_0000
    case Auipc(_, imm20) => 0 <= imm20 < 0x10_0000
    case Jal(_, offset) => -0x10_0000 <= offset < 0x10_0000 && offset % 2 == 0
    case Jalr(_, _, offset) => Signed12(offset)
    case Branch(_, _, _, offset) => -0x1000 <= offset < 0x1000 && offset % 2 == 0
    case Load(_, _, _, offset) => Signed12(offset)
    case Store(_, _, _, offset) => Signed12(offset)
  }

  // ---------------------------------------------------------------- encodings

  /** Six fields, from the top: 7, 5, 5, 3, 5 and 7 bits. */
  function Pack(high: U7, mid: Reg, rs1: Reg, funct3: U3, low: Reg, opcode: U7): Word {
    opcode + 0x80 * (low + 0x20 * (funct3 + 8 * (rs1 + 0x20 * (mid + 0x20 * high))))
  }

  function AluFunct3(op: AluOp): U3 {
    match op
    case ADD => 0 case SUB => 0 case SLL => 1 case SLT => 2 case SLTU => 3
    case XOR => 4 case SRL => 5 case SRA => 5 case OR => 6 case AND => 7
  }

  function AluFunct7(op: AluOp): U7 {
    if op.SUB? || op.SRA? then 0x20 else 0
  }

  function BranchFunct3(op: BranchOp): U3 {
    match op
    case BEQ => 0 case BNE => 1 case BLT => 4 case BGE => 5 case BLTU => 6 case BGEU => 7
  }

  function LoadFunct3(op: LoadOp): U3 {
    match op
    case LB => 0 case LH => 1 case LW => 2 case LBU => 4 case LHU => 5
  }

  function StoreFunct3(op: StoreOp): U3 {
    match op
    case SB => 0 case SH => 1 case SW => 2
  }

  function PackI(imm: int, rs1: Reg, funct3: U3, rd: Reg, opcode: U7): Word {
    var u := imm % 0x1000;
    Pack(u / 0x20, u % 0x20, rs1, funct3, rd, opcode)
  }

  function PackS(imm: int, rs2: Reg, rs1: Reg, funct3: U3): Word {
    var u := imm % 0x1000;
    Pack(u / 0x20, rs2, rs1, funct3, u % 0x20, 0x23)
  }

  /** imm[12|10:5] above, imm[4:1|11] below. */
  function PackB(imm: int, rs2: Reg, rs1: Reg, funct3: U3): Word {
    var u := imm % 0x2000;
    Pack(u / 0x1000 * 0x40 + u / 0x20 % 0x40, rs2, rs1, funct3, u / 2 % 0x10 * 2 + u / 0x800 % 2, 0x63)
  }

  function PackU(imm20: int, rd: Reg, opcode: U7): Word
    requires 0 <= imm20 < 0x10_0000
  {
    Pack(imm20 / 0x2000, imm20 / 0x100 % 0x20, imm20 / 8 % 0x20, imm20 % 8, rd, opcode)
  }

  /** imm[20|10:1|11|19:12]. */
  function PackJ(imm: int, rd: Reg): Word {
    var u := imm % 0x20_0000;
    PackU(u / 0x10_0000 * 0x8_0000 + u / 2 % 0x400 * 0x200 + u / 0x800 % 2 * 0x100 + u / 0x1000 % 0x100, rd, 0x6F)
  }

  function Encode(i: Instr): Word
    requires WellFormed(i)
  {
    match i
    case Op(op, rd, rs1, rs2) => Pack(AluFunct7(op), rs2, rs1, AluFunct3(op), rd, 0x33)
    case OpImm(op, rd, rs1, imm) => PackI(if op.SRA? then imm + 0x400 else imm, rs1, AluFunct3(op), rd, 0x13)
    case Lui(rd, imm20) => PackU(imm20, rd, 0x37)
    case Auipc(rd, imm20) => PackU(imm20, rd, 0x17)
    case Jal(rd, offset) => PackJ(offset, rd)
    case Jalr(rd, rs1, offset) => PackI(offset, rs1, 0, rd, 0x67)
    case Branch(op, rs1, rs2, offset) => PackB(offset, rs2, rs1, BranchFunct3(op))
    case Load(op, rd, rs1, offset) => PackI(offset, rs1, LoadFunct3(op), rd, 0x03)
    case Store(op, rs1, rs2, offset) => PackS(offset, rs2, rs1, StoreFunct3(op))
  }

  // ----------------------------------------------------------------- meanings

  /** The number whose bit k is f(k), for k < n. */
  function BitSum(f: nat -> bool, n: nat): nat {
    if n == 0 then 0 else BitSum(f, n - 1) + (if f(n - 1) then Pow2(n - 1) else 0)
  }

  function BitByBit(f: (bool, bool) -> bool, x: Word, y: Word): int {
    BitSum((k: nat) => f(Bit(x, k), Bit(y, k)), 32)
  }

  /** The value of a register-register or register-immediate operation, before
      truncation to 32 bits. Division rounds down. */
  function Value(op: AluOp, x: Word, y: Word): int {
    match op
    case ADD => Signed(x) + Signed(y)
    case SUB => Signed(x) - Signed(y)
    case SLL => x * Pow2(y % 32)
    case SLT => Flag(Signed(x) < Signed(y))
    case SLTU => Flag(x < y)
    case XOR => BitByBit((p, q) => p != q, x, y)
    case SRL => x / Pow2(y % 32)
    case SRA => Signed(x) / Pow2(y % 32)
    case OR => BitByBit((p, q) => p || q, x, y)
    case AND => BitByBit((p, q) => p && q, x, y)
  }

  predicate Decides(op: BranchOp, x: Word, y: Word) {
    match op
    case BEQ => x == y
    case BNE => x != y
    case BLT => Signed(x) < Signed(y)
    case BGE => Signed(x) >= Signed(y)
    case BLTU => x < y
    case BGEU => x >= y
  }

  function LoadSize(op: LoadOp): nat {
    match op
    case LB => 1 case LBU => 1 case LH => 2 case LHU => 2 case LW => 4
  }

  function SizeOf(op: StoreOp): nat {
    match op
    case SB => 1 case SH => 2 case SW => 4
  }

  function LoadValue(op: LoadOp, m: Memory, a: nat): int {
    var x := LittleEndian(m, a, LoadSize(op));
    if op.LBU? || op.LHU? then x else SignedBytes(x, LoadSize(op))
  }

  /** The n low bytes of x placed at a, least significant first. */
  function PutBytes(m: Memory, a: nat, x: int, n: nat): Memory
    requires a + n <= SIZE
    decreases n
  {
    if n == 0 then m else PutBytes(m[a := x % 0x100], a + 1, x / 0x100, n - 1)
  }

  /** x0 reads as zero. */
  function X(a: Arch, r: Reg): Word {
    if r == 0 then 0 else a.regs[r]
  }

  /** Writes to x0 are ignored. */
  function Set(a: Arch, r: Reg, value: int): Arch {
    if r == 0 then a else a.(regs := a.regs[r := Wrap(value)])
  }

  function Goto(a: Arch, pc: int): Arch {
    a.(pc := Wrap(pc))
  }

  /** The data memory has 2^17 bytes and ignores the address bits above them. */
  function DataAddress(a: Arch, rs1: Reg, offset: int): Address {
    (X(a, rs1) + offset) % SIZE
  }

  /** The bytes accessed do not run past the end of the data memory. */
  predicate InRange(i: Instr, a: Arch) {
    match i
    case Load(op, _, rs1, offset) => DataAddress(a, rs1, offset) + LoadSize(op) <= SIZE
    case Store(op, rs1, _, offset) => DataAddress(a, rs1, offset) + SizeOf(op) <= SIZE
    case _ => true
  }

  function Exec(i: Instr, a: Arch): Arch
    requires InRange(i, a)
  {
    var next := Goto(a, a.pc + 4);
    match i
    case Op(op, rd, rs1, rs2) => Set(next, rd, Value(op, X(a, rs1), X(a, rs2)))
    case OpImm(op, rd, rs1, imm) => Set(next, rd, Value(op, X(a, rs1), Wrap(imm)))
    case Lui(rd, imm20) => Set(next, rd, imm20 * 0x1000)
    case Auipc(rd, imm20) => Set(next, rd, a.pc + imm20 * 0x1000)
    case Jal(rd, offset) => Set(Goto(a, a.pc + offset), rd, a.pc + 4)
    case Jalr(rd, rs1, offset) =>
      var target := Wrap(X(a, rs1) + offset);
      Set(Goto(a, target - target % 2), rd, a.pc + 4)
    case Branch(op, rs1, rs2, offset) =>
      if Decides(op, X(a, rs1), X(a, rs2)) then Goto(a, a.pc + offset) else next
    case Load(op, rd, rs1, offset) => Set(next, rd, LoadValue(op, a.mem, DataAddress(a, rs1, offset)))
    case Store(op, rs1, rs2, offset) =>
      next.(mem := PutBytes(a.mem, DataAddress(a, rs1, offset), X(a, rs2), SizeOf(op)))
  }
}
