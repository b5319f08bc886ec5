/** The hardware's field extraction, decoders and sign extension recover every
    instruction from its encoding. */
module Encoding {
  import opened Words
  import opened Isa
  import opened ControlUnit
  import opened Pipeline

  lemma Fields(high: U7, mid: Reg, rs1: Reg, funct3: U3, low: Reg, opcode: U7)
    ensures var w := Pack(high, mid, rs1, funct3, low, opcode);
      && Opcode(w) == opcode && Rd(w) == low && Funct3(w) == funct3 && Rs1(w) == rs1 && Rs2(w) == mid
      && w / 0x200_0000 == high && w / 0x10_0000 == mid + 0x20 * high
      && w / 0x1000 == funct3 + 8 * (rs1 + 0x20 * (mid + 0x20 * high))
  {
    var x5 := mid + 0x20 * high;
    var x4 := rs1 + 0x20 * x5;
    var x3 := funct3 + 8 * x4;
    var x2 := low + 0x20 * x3;
    Quotients(opcode + 0x80 * x2, x2, x3, x4, x5, high, mid, rs1, funct3, low, opcode);
  }

  /** Successive quotients, each peeling off the lowest field. */
  lemma Quotients(w: nat, x2: nat, x3: nat, x4: nat, x5: nat,
                  high: U7, mid: Reg, rs1: Reg, funct3: U3, low: Reg, opcode: U7)
    requires w == opcode + 0x80 * x2 && x2 == low + 0x20 * x3 && x3 == funct3 + 8 * x4
    requires x4 == rs1 + 0x20 * x5 && x5 == mid + 0x20 * high
    ensures w % 0x80 == opcode && w / 0x80 == x2
    ensures x2 % 0x20 == low && w / 0x1000 == x3
    ensures x3 % 8 == funct3 && w / 0x8000 == x4
    ensures x4 % 0x20 == rs1 && w / 0x10_0000 == x5
    ensures x5 % 0x20 == mid && w / 0x200_0000 == high
  {
    QuotientUnique(w, 0x80, x2, opcode);
    QuotientUnique(w, 0x1000, x3, opcode + 0x80 * low);
    QuotientUnique(w, 0x8000, x4, opcode + 0x80 * low + 0x1000 * funct3);
    QuotientUnique(w, 0x10_0000, x5, opcode + 0x80 * low + 0x1000 * funct3 + 0x8000 * rs1);
    QuotientUnique(w, 0x200_0000, high, opcode + 0x80 * low + 0x1000 * funct3 + 0x8000 * rs1 + 0x10_0000 * mid);
  }

  /** The parts of the word that sign_extend.sv and funct7[5] take, in terms of the fields. */
  lemma ImmediateParts(high: U7, mid: Reg, rs1: Reg, funct3: U3, low: Reg, opcode: U7)
    ensures var w := Pack(high, mid, rs1, funct3, low, opcode);
      && w / 0x8000_0000 == high / 0x40 && w / 0x4000_0000 % 2 == high / 0x20 % 2
      && w / 0x80 % 2 == low % 2 && w / 0x100 % 0x10 == low / 2
      && w / 0x1000 % 0x100 == funct3 + 8 * rs1 && w / 0x10_0000 % 2 == mid % 2
      && w / 0x20_0000 % 0x400 == mid / 2 + 0x10 * (high % 0x40)
  {
    hide Pack;
    var w := Pack(high, mid, rs1, funct3, low, opcode);
    Fields(high, mid, rs1, funct3, low, opcode);
    PartsOf(w, w / 0x80, w / 0x1000, w / 0x10_0000, high, mid, rs1, funct3, low);
  }

  lemma PartsOf(w: Word, x2: nat, x3: nat, x5: nat, high: U7, mid: Reg, rs1: Reg, funct3: U3, low: Reg)
    requires w / 0x200_0000 == high && w / 0x80 == x2 && x2 % 0x20 == low
    requires w / 0x1000 == x3 && x3 == funct3 + 8 * (rs1 + 0x20 * x5)
    requires w / 0x10_0000 == x5 && x5 == mid + 0x20 * high
    ensures w / 0x8000_0000 == high / 0x40 && w / 0x4000_0000 % 2 == high / 0x20 % 2
    ensures x2 % 2 == low % 2 && w / 0x100 % 0x10 == low / 2
    ensures x3 % 0x100 == funct3 + 8 * rs1 && x5 % 2 == mid % 2
    ensures w / 0x20_0000 % 0x400 == mid / 2 + 0x10 * (high % 0x40)
  {
    DivDiv(w, 0x200_0000, 0x40);
    DivDiv(w, 0x200_0000, 0x20);
    DivDiv(w, 0x80, 2);
    DivDiv(w, 0x10_0000, 2);
    LowHalf(x2, low);
    QuotientUnique(x3, 0x100, x5, funct3 + 8 * rs1);
    MiddleHalf(x5, mid, high);
  }

  lemma LowHalf(x: nat, low: Reg)
    requires x % 0x20 == low
    ensures x % 2 == low % 2 && x / 2 % 0x10 == low / 2
  {
    assert x == 2 * (0x10 * (x / 0x20) + low / 2) + low % 2;
    assert x / 2 == 0x10 * (x / 0x20) + low / 2;
  }

  lemma MiddleHalf(x: nat, mid: Reg, high: U7)
    requires x == mid + 0x20 * high
    ensures x % 2 == mid % 2 && x / 2 % 0x400 == mid / 2 + 0x10 * (high % 0x40)
  {
    assert x / 2 == mid / 2 + 0x10 * high;
    assert x / 2 == mid / 2 + 0x10 * (high % 0x40) + 0x400 * (high / 0x40);
  }

  lemma DivDiv(w: nat, p: nat, q: nat)
    requires p > 0 && q > 0
    ensures p * q > 0 && w / p / q == w / (p * q)
  {
    var x := w / p;
    Recombine(w, p, q, x, x / q, w % p, x % q);
    QuotientUnique(w, p * q, x / q, p * (x % q) + w % p);
  }

  lemma Recombine(w: int, p: nat, q: nat, x: int, y: int, r: nat, t: nat)
    requires w == p * x + r && x == q * y + t && r < p && t < q
    ensures w == (p * q) * y + (p * t + r) && 0 <= p * t + r < p * q
  {
    assert p * (q * y + t) == (p * q) * y + p * t;
    MulMonotone(p, t + 1, q);
    assert p * (t + 1) == p * t + p;
  }

  // --------------------------------------------------------------- immediates

  lemma ImmediateI(imm: int, rs1: Reg, funct3: U3, rd: Reg, opcode: U7)
    requires Signed12(imm)
    ensures SignExtend(PackI(imm, rs1, funct3, rd, opcode), 0) == Wrap(imm)
  {
    hide Pack, Wrap;
    var u := imm % 0x1000;
    Fields(u / 0x20, u % 0x20, rs1, funct3, rd, opcode);
    ImmediateParts(u / 0x20, u % 0x20, rs1, funct3, rd, opcode);
    Extend12(imm, u);
  }

  lemma ImmediateS(imm: int, rs2: Reg, rs1: Reg, funct3: U3)
    requires Signed12(imm)
    ensures SignExtend(PackS(imm, rs2, rs1, funct3), 1) == Wrap(imm)
  {
    hide Pack, Wrap;
    var u := imm % 0x1000;
    Fields(u / 0x20, rs2, rs1, funct3, u % 0x20, 0x23);
    ImmediateParts(u / 0x20, rs2, rs1, funct3, u % 0x20, 0x23);
    Extend12(imm, u);
  }

  lemma Extend12(imm: int, u: nat)
    requires Signed12(imm) && u == imm % 0x1000
    ensures u % 0x20 + 0x20 * (u / 0x20) == u
    ensures u / 0x20 / 0x40 * 0xFFFF_F000 + u == Wrap(imm)
  {
    if imm < 0 {
      QuotientUnique(imm, 0x1000, -1, imm + 0x1000);
      QuotientUnique(imm, TWO_32, -1, imm + TWO_32);
      QuotientUnique(u / 0x20, 0x40, 1, u / 0x20 - 0x40);
    } else {
      QuotientUnique(imm, 0x1000, 0, imm);
      QuotientUnique(imm, TWO_32, 0, imm);
      QuotientUnique(u / 0x20, 0x40, 0, u / 0x20);
    }
  }

  lemma ImmediateB(imm: int, rs2: Reg, rs1: Reg, funct3: U3)
    requires -0x1000 <= imm < 0x1000 && imm % 2 == 0
    ensures SignExtend(PackB(imm, rs2, rs1, funct3), 2) == Wrap(imm)
  {
    hide Pack, Wrap, SignExtend;
    var u := imm % 0x2000;
    var sign, mid6, low4, bit11 := u / 0x1000, u / 0x20 % 0x40, u / 2 % 0x10, u / 0x800 % 2;
    Fields(sign * 0x40 + mid6, rs2, rs1, funct3, low4 * 2 + bit11, 0x63);
    ImmediateParts(sign * 0x40 + mid6, rs2, rs1, funct3, low4 * 2 + bit11, 0x63);
    QuotientUnique(sign * 0x40 + mid6, 0x40, sign, mid6);
    QuotientUnique(low4 * 2 + bit11, 2, low4, bit11);
    EvenMod(imm, u, 0x1000);
    SplitB(u);
    SignExtension(imm, 0x1000, u, sign);
    AssembleB(PackB(imm, rs2, rs1, funct3), Wrap(imm), u, sign, bit11, mid6, low4);
  }

  lemma AssembleB(w: Word, imm: Word, u: int, sign: int, bit11: int, mid6: int, low4: int)
    requires w / 0x8000_0000 == sign && w / 0x80 % 2 == bit11
    requires w / 0x200_0000 % 0x40 == mid6 && w / 0x100 % 0x10 == low4
    requires u == sign * 0x1000 + bit11 * 0x800 + mid6 * 0x20 + low4 * 2
    requires sign * (TWO_32 - 0x1000) + (u - sign * 0x1000) == imm
    ensures SignExtend(w, 2) == imm
  {
  }

  lemma EvenMod(imm: int, u: int, k: int)
    requires k > 0 && u == imm % (2 * k) && imm % 2 == 0
    ensures u % 2 == 0
  {
    var q := imm / (2 * k);
    assert imm == 2 * k * q + u;
    assert u == 2 * (imm / 2 - k * q);
  }

  /** With 2k values of which the upper half is negative, adding 2^32 - k per sign bit
      to the value without its sign bit is truncation to 32 bits. */
  lemma SignExtension(imm: int, k: int, u: int, sign: int)
    requires 0 < k < TWO_31 && -k <= imm < k && u == imm % (2 * k) && sign == u / k
    ensures sign * (TWO_32 - k) + (u - sign * k) == Wrap(imm)
  {
    if imm < 0 {
      QuotientUnique(imm, 2 * k, -1, imm + 2 * k);
      QuotientUnique(imm, TWO_32, -1, imm + TWO_32);
      QuotientUnique(u, k, 1, u - k);
    } else {
      QuotientUnique(imm, 2 * k, 0, imm);
      QuotientUnique(imm, TWO_32, 0, imm);
      QuotientUnique(u, k, 0, u);
    }
  }

  lemma SplitB(u: nat)
    requires u < 0x2000 && u % 2 == 0
    ensures u == u / 0x1000 * 0x1000 + u / 0x800 % 2 * 0x800 + u / 0x20 % 0x40 * 0x20 + u / 2 % 0x10 * 2
  {
    DivDiv(u, 2, 0x10);
    DivDiv(u, 0x20, 0x40);
    DivDiv(u, 0x800, 2);
  }

  lemma ImmediateU(imm20: int, rd: Reg, opcode: U7)
    requires 0 <= imm20 < 0x10_0000
    ensures SignExtend(PackU(imm20, rd, opcode), 3) == imm20 * 0x1000
  {
    hide Pack;
    Fields(imm20 / 0x2000, imm20 / 0x100 % 0x20, imm20 / 8 % 0x20, imm20 % 8, rd, opcode);
    SplitU(imm20);
  }

  lemma SplitU(x: nat)
    requires x < 0x10_0000
    ensures x == x % 8 + 8 * (x / 8 % 0x20 + 0x20 * (x / 0x100 % 0x20 + 0x20 * (x / 0x2000)))
  {
    DivDiv(x, 8, 0x20);
    DivDiv(x, 0x100, 0x20);
  }

  lemma ImmediateJ(imm: int, rd: Reg)
    requires -0x10_0000 <= imm < 0x10_0000 && imm % 2 == 0
    ensures SignExtend(PackJ(imm, rd), 4) == Wrap(imm)
  {
    hide PackU, Wrap, SignExtend;
    var u := imm % 0x20_0000;
    var sign, mid10, bit11, high8 := u / 0x10_0000, u / 2 % 0x400, u / 0x800 % 2, u / 0x1000 % 0x100;
    JumpWord(sign, mid10, bit11, high8, sign * 0x8_0000 + mid10 * 0x200 + bit11 * 0x100 + high8, rd);
    EvenMod(imm, u, 0x10_0000);
    SplitJ(u);
    SignExtension(imm, 0x10_0000, u, sign);
    AssembleJ(PackJ(imm, rd), Wrap(imm), u, sign, mid10, bit11, high8);
  }

  /** The fields of a jump's immediate in its word. */
  lemma JumpWord(sign: nat, mid10: nat, bit11: nat, high8: nat, j: nat, rd: Reg)
    requires sign < 2 && mid10 < 0x400 && bit11 < 2 && high8 < 0x100
    requires j == sign * 0x8_0000 + mid10 * 0x200 + bit11 * 0x100 + high8
    ensures var w := PackU(j, rd, 0x6F);
      && w / 0x8000_0000 == sign && w / 0x1000 % 0x100 == high8
      && w / 0x10_0000 % 2 == bit11 && w / 0x20_0000 % 0x400 == mid10
  {
    hide Pack;
    ImmediateParts(j / 0x2000, j / 0x100 % 0x20, j / 8 % 0x20, j % 8, rd, 0x6F);
    PartsOfJ(sign, mid10, bit11, high8, j);
  }

  lemma AssembleJ(w: Word, imm: Word, u: int, sign: int, mid10: int, bit11: int, high8: int)
    requires w / 0x8000_0000 == sign && w / 0x1000 % 0x100 == high8
    requires w / 0x10_0000 % 2 == bit11 && w / 0x20_0000 % 0x400 == mid10
    requires u == sign * 0x10_0000 + high8 * 0x1000 + bit11 * 0x800 + mid10 * 2
    requires sign * (TWO_32 - 0x10_0000) + (u - sign * 0x10_0000) == imm
    ensures SignExtend(w, 4) == imm
  {
  }

  lemma SplitJ(u: nat)
    requires u < 0x20_0000 && u % 2 == 0
    ensures u == u / 0x10_0000 * 0x10_0000 + u / 0x1000 % 0x100 * 0x1000 + u / 0x800 % 2 * 0x800 + u / 2 % 0x400 * 2
  {
    DivDiv(u, 2, 0x400);
    DivDiv(u, 0x800, 2);
    DivDiv(u, 0x1000, 0x100);
  }

  lemma PartsOfJ(sign: nat, mid10: nat, bit11: nat, high8: nat, j: nat)
    requires sign < 2 && mid10 < 0x400 && bit11 < 2 && high8 < 0x100
    requires j == sign * 0x8_0000 + mid10 * 0x200 + bit11 * 0x100 + high8
    ensures j / 0x2000 / 0x40 == sign
    ensures j / 0x100 % 0x20 % 2 == bit11
    ensures j % 8 + 8 * (j / 8 % 0x20) == high8
    ensures j / 0x100 % 0x20 / 2 + 0x10 * (j / 0x2000 % 0x40) == mid10
  {
    assert j / 0x100 == sign * 0x800 + mid10 * 2 + bit11;
    assert j / 0x2000 == sign * 0x40 + mid10 / 0x10;
    assert j / 0x100 % 0x20 == mid10 % 0x10 * 2 + bit11;
    assert j / 8 == sign * 0x1_0000 + mid10 * 0x40 + bit11 * 0x20 + high8 / 8;
  }

  // --------------------------------------------------------------- round trip

  /** The ALU operation codes of rtl/alu/alu.sv:19-29. */
  function AluControl(op: AluOp): U4 {
    match op
    case ADD => 0 case SUB => 1 case SLL => 2 case SLT => 3 case SLTU => 4
    case XOR => 5 case SRL => 6 case SRA => 7 case OR => 8 case AND => 9
  }

  /** The 12-bit immediate field: SRAI sets bit 10 above its shift amount. */
  function ImmediateField(op: AluOp, imm: int): int {
    if op.SRA? then imm + 0x400 else imm
  }

  /** What the execute stage should be told about instruction i; the fields that the
      format does not have are those of `other`. */
  function Intended(i: Instr, d: RegD, x: Word, y: Word, other: RegE): RegE
    requires WellFormed(i)
  {
    var e := other.(rd1 := x, rd2 := y, pc := d.pc, pcPlus4 := d.pcPlus4, memWrite := i.Store?, memRead := i.Load?,
                    regWrite := !i.Store? && !i.Branch?, jump := i.Jalr?, branch := i.Jal? || i.Jalr? || i.Branch?,
                    aluSrc := !i.Op? && !i.Branch? && !i.Jal?,
                    resultSrc := if i.Load? then 1 else if i.Jal? || i.Jalr? || i.Auipc? then 2 else 0);
    match i
    case Op(op, rd, rs1, rs2) =>
      e.(op := 0x33, rd := rd, rs1 := rs1, rs2 := rs2, aluControl := AluControl(op))
    case OpImm(op, rd, rs1, imm) =>
      e.(op := 0x13, rd := rd, rs1 := rs1, immExt := Wrap(ImmediateField(op, imm)), aluControl := AluControl(op))
    case Lui(rd, imm20) => e.(op := 0x37, rd := rd, immExt := imm20 * 0x1000, aluControl := 11)
    case Auipc(rd, imm20) => e.(op := 0x17, rd := rd, immExt := imm20 * 0x1000, aluControl := 11)
    case Jal(rd, offset) => e.(op := 0x6F, rd := rd, immExt := Wrap(offset), aluControl := 11)
    case Jalr(rd, rs1, offset) => e.(op := 0x67, rd := rd, rs1 := rs1, immExt := Wrap(offset), aluControl := 0)
    case Branch(op, rs1, rs2, offset) =>
      e.(op := 0x63, rs1 := rs1, rs2 := rs2, immExt := Wrap(offset), funct3 := BranchFunct3(op), aluControl := 1)
    case Load(op, rd, rs1, offset) =>
      e.(op := 0x03, rd := rd, rs1 := rs1, immExt := Wrap(offset), funct3 := LoadFunct3(op), aluControl := 0)
    case Store(op, rs1, rs2, offset) =>
      e.(op := 0x23, rs1 := rs1, rs2 := rs2, immExt := Wrap(offset), funct3 := StoreFunct3(op), aluControl := 0)
  }

  lemma FieldsI(imm: int, rs1: Reg, funct3: U3, rd: Reg, opcode: U7)
    requires Signed12(imm)
    ensures var w := PackI(imm, rs1, funct3, rd, opcode);
      && Opcode(w) == opcode && Rd(w) == rd && Funct3(w) == funct3 && Rs1(w) == rs1
      && SignExtend(w, 0) == Wrap(imm) && (Funct7Bit5(w) <==> imm % 0x1000 / 0x20 / 0x20 % 2 == 1)
  {
    hide Pack, SignExtend;
    var u := imm % 0x1000;
    Fields(u / 0x20, u % 0x20, rs1, funct3, rd, opcode);
    ImmediateParts(u / 0x20, u % 0x20, rs1, funct3, rd, opcode);
    ImmediateI(imm, rs1, funct3, rd, opcode);
  }

  lemma RoundTripOp(i: Instr, d: RegD, x: Word, y: Word)
    requires WellFormed(i) && i.Op? && d.instr == Encode(i)
    ensures var e := Decode(d, x, y); e == Intended(i, d, x, y, e)
  {
    hide Pack, SignExtend;
    Fields(AluFunct7(i.op), i.rs2, i.rs1, AluFunct3(i.op), i.rd, 0x33);
    ImmediateParts(AluFunct7(i.op), i.rs2, i.rs1, AluFunct3(i.op), i.rd, 0x33);
  }

  lemma RoundTripOpImm(i: Instr, d: RegD, x: Word, y: Word)
    requires WellFormed(i) && i.OpImm? && d.instr == Encode(i)
    ensures var e := Decode(d, x, y); e == Intended(i, d, x, y, e)
  {
    hide PackI, SignExtend, Opcode, Rd, Rs1, Rs2, Funct3, Funct7Bit5, Wrap;
    FieldsI(ImmediateField(i.op, i.imm), i.rs1, AluFunct3(i.op), i.rd, 0x13);
  }

  lemma RoundTripUpper(i: Instr, d: RegD, x: Word, y: Word)
    requires WellFormed(i) && (i.Lui? || i.Auipc?) && d.instr == Encode(i)
    ensures var e := Decode(d, x, y); e == Intended(i, d, x, y, e)
  {
    hide Pack, SignExtend;
    var u, opcode: U7 := i.imm20, if i.Lui? then 0x37 else 0x17;
    Fields(u / 0x2000, u / 0x100 % 0x20, u / 8 % 0x20, u % 8, i.rd, opcode);
    ImmediateU(u, i.rd, opcode);
  }

  lemma RoundTripJal(i: Instr, d: RegD, x: Word, y: Word)
    requires WellFormed(i) && i.Jal? && d.instr == Encode(i)
    ensures var e := Decode(d, x, y); e == Intended(i, d, x, y, e)
  {
    hide PackJ, SignExtend, Wrap, Opcode, Rd, Rs1, Rs2, Funct3, Funct7Bit5;
    FieldsJ(i.offset, i.rd);
  }

  lemma FieldsJ(imm: int, rd: Reg)
    requires -0x10_0000 <= imm < 0x10_0000 && imm % 2 == 0
    ensures var w := PackJ(imm, rd); Opcode(w) == 0x6F && Rd(w) == rd && SignExtend(w, 4) == Wrap(imm)
  {
    hide Pack, SignExtend, Wrap;
    var u := imm % 0x20_0000;
    var j := u / 0x10_0000 * 0x8_0000 + u / 2 % 0x400 * 0x200 + u / 0x800 % 2 * 0x100 + u / 0x1000 % 0x100;
    Fields(j / 0x2000, j / 0x100 % 0x20, j / 8 % 0x20, j % 8, rd, 0x6F);
    ImmediateJ(imm, rd);
  }

  lemma RoundTripIType(i: Instr, d: RegD, x: Word, y: Word)
    requires WellFormed(i) && (i.Jalr? || i.Load?) && d.instr == Encode(i)
    ensures var e := Decode(d, x, y); e == Intended(i, d, x, y, e)
  {
    hide PackI, SignExtend, Opcode, Rd, Rs1, Rs2, Funct3, Funct7Bit5, Wrap;
    FieldsI(i.offset, i.rs1, if i.Load? then LoadFunct3(i.lop) else 0, i.rd, if i.Load? then 0x03 else 0x67);
  }

  lemma RoundTripStore(i: Instr, d: RegD, x: Word, y: Word)
    requires WellFormed(i) && i.Store? && d.instr == Encode(i)
    ensures var e := Decode(d, x, y); e == Intended(i, d, x, y, e)
  {
    hide Pack, SignExtend, Wrap;
    var u := i.offset % 0x1000;
    Fields(u / 0x20, i.rs2, i.rs1, StoreFunct3(i.sop), u % 0x20, 0x23);
    ImmediateS(i.offset, i.rs2, i.rs1, StoreFunct3(i.sop));
  }

  lemma RoundTripBranch(i: Instr, d: RegD, x: Word, y: Word)
    requires WellFormed(i) && i.Branch? && d.instr == Encode(i)
    ensures var e := Decode(d, x, y); e == Intended(i, d, x, y, e)
  {
    hide Pack, SignExtend, Wrap;
    var u := i.offset % 0x2000;
    var high, low := u / 0x1000 * 0x40 + u / 0x20 % 0x40, u / 2 % 0x10 * 2 + u / 0x800 % 2;
    Fields(high, i.rs2, i.rs1, BranchFunct3(i.bop), low, 0x63);
    ImmediateB(i.offset, i.rs2, i.rs1, BranchFunct3(i.bop));
  }

  /** Decoding an encoded instruction recovers its registers, its exact immediate and
      the intended control signals and ALU operation. */
  lemma RoundTrip(i: Instr, d: RegD, x: Word, y: Word)
    requires WellFormed(i) && d.instr == Encode(i)
    ensures var e := Decode(d, x, y); e == Intended(i, d, x, y, e)
  {
    hide Decode, Encode, Intended, WellFormed;
    match i
    case Op(_, _, _, _) => RoundTripOp(i, d, x, y);
    case OpImm(_, _, _, _) => RoundTripOpImm(i, d, x, y);
    case Lui(_, _) => RoundTripUpper(i, d, x, y);
    case Auipc(_, _) => RoundTripUpper(i, d, x, y);
    case Jal(_, _) => RoundTripJal(i, d, x, y);
    case Jalr(_, _, _) => RoundTripIType(i, d, x, y);
    case Branch(_, _, _, _) => RoundTripBranch(i, d, x, y);
    case Load(_, _, _, _) => RoundTripIType(i, d, x, y);
    case Store(_, _, _, _) => RoundTripStore(i, d, x, y);
  }

  /** No two instructions share an encoding. */
  lemma EncodeInjective(i: Instr, j: Instr)
    requires WellFormed(i) && WellFormed(j) && Encode(i) == Encode(j)
    ensures i == j
  {
    hide Decode, Encode, Wrap;
    var d := RegD(Encode(i), 0, 0);
    RoundTrip(i, d, 0, 0);
    RoundTrip(j, d, 0, 0);
    WrapInjective(ImmediateOf(i), ImmediateOf(j));
  }

  function ImmediateOf(i: Instr): int {
    match i
    case OpImm(op, _, _, imm) => ImmediateField(op, imm)
    case Jal(_, offset) => offset
    case Jalr(_, _, offset) => offset
    case Branch(_, _, _, offset) => offset
    case Load(_, _, _, offset) => offset
    case Store(_, _, _, offset) => offset
    case _ => 0
  }

  lemma WrapInjective(x: int, y: int)
    requires -TWO_31 <= x < TWO_31 && -TWO_31 <= y < TWO_31
    ensures Wrap(x) == Wrap(y) <==> x == y
  {
  }

  // ------------------------------------------------------------- the bits of a word

  /** A register operation's word: the top seven bits are 0100000 for SUB and SRA and zero for
      the eight others, and funct3 is the number of the operation in the ISA's table. */
  lemma OpFields(op: AluOp, rd: Reg, rs1: Reg, rs2: Reg)
    ensures var w := Encode(Op(op, rd, rs1, rs2));
      && w / 0x200_0000 == (match op case SUB => 0x20 case SRA => 0x20 case _ => 0)
      && w / 0x10_0000 % 0x20 == rs2 && w / 0x8000 % 0x20 == rs1 && w / 0x80 % 0x20 == rd && w % 0x80 == 0x33
      && w / 0x1000 % 8 ==
        (match op
         case ADD => 0 case SUB => 0 case SLL => 1 case SLT => 2 case SLTU => 3
         case XOR => 4 case SRL => 5 case SRA => 5 case OR => 6 case AND => 7)
  {
    hide Pack;
    Fields(AluFunct7(op), rs2, rs1, AluFunct3(op), rd, 0x33);
  }

  /** An immediate operation's word: all twelve bits of the immediate, or the shift amount
      under the same seven bits as the register operation. */
  lemma OpImmFields(op: AluOp, rd: Reg, rs1: Reg, imm: int)
    requires WellFormed(OpImm(op, rd, rs1, imm))
    ensures var w := Encode(OpImm(op, rd, rs1, imm));
      && (!op.SLL? && !op.SRL? && !op.SRA? ==> w / 0x10_0000 == imm % 0x1000)
      && (op.SLL? || op.SRL? || op.SRA? ==>
            w / 0x200_0000 == (if op.SRA? then 0x20 else 0) && w / 0x10_0000 % 0x20 == imm)
      && w / 0x8000 % 0x20 == rs1 && w / 0x80 % 0x20 == rd && w % 0x80 == 0x13
      && w / 0x1000 % 8 == Encode(Op(op, 0, 0, 0)) / 0x1000 % 8
  {
    hide Pack;
    var field := if op.SRA? then imm + 0x400 else imm;
    Fields(field % 0x1000 / 0x20, field % 0x1000 % 0x20, rs1, AluFunct3(op), rd, 0x13);
    Fields(AluFunct7(op), 0, 0, AluFunct3(op), 0, 0x33);
  }

  /** The words of loads and of JALR. */
  lemma LoadFields(lop: LoadOp, rd: Reg, rs1: Reg, offset: int)
    requires Signed12(offset)
    ensures var w := Encode(Load(lop, rd, rs1, offset));
      && w / 0x10_0000 == offset % 0x1000 && w / 0x8000 % 0x20 == rs1 && w / 0x80 % 0x20 == rd && w % 0x80 == 0x03
      && w / 0x1000 % 8 == (match lop case LB => 0 case LH => 1 case LW => 2 case LBU => 4 case LHU => 5)
    ensures var w := Encode(Jalr(rd, rs1, offset));
      && w / 0x10_0000 == offset % 0x1000 && w / 0x8000 % 0x20 == rs1 && w / 0x1000 % 8 == 0
      && w / 0x80 % 0x20 == rd && w % 0x80 == 0x67
  {
    hide Pack;
    var u := offset % 0x1000;
    Fields(u / 0x20, u % 0x20, rs1, LoadFunct3(lop), rd, 0x03);
    Fields(u / 0x20, u % 0x20, rs1, 0, rd, 0x67);
  }

  /** The words of stores: imm[11:5] above, imm[4:0] below. */
  lemma StoreFields(sop: StoreOp, rs1: Reg, rs2: Reg, offset: int)
    requires Signed12(offset)
    ensures var w := Encode(Store(sop, rs1, rs2, offset));
      && w / 0x200_0000 * 0x20 + w / 0x80 % 0x20 == offset % 0x1000
      && w / 0x10_0000 % 0x20 == rs2 && w / 0x8000 % 0x20 == rs1 && w % 0x80 == 0x23
      && w / 0x1000 % 8 == (match sop case SB => 0 case SH => 1 case SW => 2)
  {
    hide Pack;
    var u := offset % 0x1000;
    Fields(u / 0x20, rs2, rs1, StoreFunct3(sop), u % 0x20, 0x23);
  }

  /** The words of branches: imm[12|10:5] above, imm[4:1|11] below. */
  lemma BranchFields(bop: BranchOp, rs1: Reg, rs2: Reg, offset: int)
    requires WellFormed(Branch(bop, rs1, rs2, offset))
    ensures var w, u := Encode(Branch(bop, rs1, rs2, offset)), offset % 0x2000;
      && w / 0x8000_0000 == u / 0x1000 && w / 0x200_0000 % 0x40 == u / 0x20 % 0x40
      && w / 0x100 % 0x10 == u / 2 % 0x10 && w / 0x80 % 2 == u / 0x800 % 2
      && w / 0x10_0000 % 0x20 == rs2 && w / 0x8000 % 0x20 == rs1 && w % 0x80 == 0x63
      && w / 0x1000 % 8 ==
        (match bop case BEQ => 0 case BNE => 1 case BLT => 4 case BGE => 5 case BLTU => 6 case BGEU => 7)
  {
    hide Pack;
    var u := offset % 0x2000;
    BranchWord(u / 0x1000, u / 0x20 % 0x40, u / 2 % 0x10, u / 0x800 % 2, rs2, rs1, BranchFunct3(bop));
  }

  lemma BranchWord(sign: nat, mid6: nat, low4: nat, bit11: nat, rs2: Reg, rs1: Reg, funct3: U3)
    requires sign < 2 && mid6 < 0x40 && low4 < 0x10 && bit11 < 2
    ensures var w := Pack(sign * 0x40 + mid6, rs2, rs1, funct3, low4 * 2 + bit11, 0x63);
      && w / 0x8000_0000 == sign && w / 0x200_0000 % 0x40 == mid6
      && w / 0x100 % 0x10 == low4 && w / 0x80 % 2 == bit11
      && w / 0x10_0000 % 0x20 == rs2 && w / 0x8000 % 0x20 == rs1 && w % 0x80 == 0x63 && w / 0x1000 % 8 == funct3
  {
    hide Pack;
    Fields(sign * 0x40 + mid6, rs2, rs1, funct3, low4 * 2 + bit11, 0x63);
    ImmediateParts(sign * 0x40 + mid6, rs2, rs1, funct3, low4 * 2 + bit11, 0x63);
    QuotientUnique(sign * 0x40 + mid6, 0x40, sign, mid6);
    QuotientUnique(low4 * 2 + bit11, 2, low4, bit11);
  }

  /** The words of LUI and AUIPC. */
  lemma UpperFields(rd: Reg, imm20: int)
    requires 0 <= imm20 < 0x10_0000
    ensures var w := Encode(Lui(rd, imm20)); w / 0x1000 == imm20 && w / 0x80 % 0x20 == rd && w % 0x80 == 0x37
    ensures var w := Encode(Auipc(rd, imm20)); w / 0x1000 == imm20 && w / 0x80 % 0x20 == rd && w % 0x80 == 0x17
  {
    hide Pack;
    Fields(imm20 / 0x2000, imm20 / 0x100 % 0x20, imm20 / 8 % 0x20, imm20 % 8, rd, 0x37);
    Fields(imm20 / 0x2000, imm20 / 0x100 % 0x20, imm20 / 8 % 0x20, imm20 % 8, rd, 0x17);
    SplitU(imm20);
  }

  /** The word of a jump: imm[20|10:1|11|19:12] above rd. */
  lemma JalFields(rd: Reg, offset: int)
    requires WellFormed(Jal(rd, offset))
    ensures var w := Encode(Jal(rd, offset));
      var u := offset % 0x20_0000;
      && w / 0x8000_0000 == u / 0x10_0000 && w / 0x20_0000 % 0x400 == u / 2 % 0x400
      && w / 0x10_0000 % 2 == u / 0x800 % 2 && w / 0x1000 % 0x100 == u / 0x1000 % 0x100
      && w / 0x80 % 0x20 == rd && w % 0x80 == 0x6F
  {
    hide PackU;
    var u := offset % 0x20_0000;
    var sign, mid10, bit11, high8 := u / 0x10_0000, u / 2 % 0x400, u / 0x800 % 2, u / 0x1000 % 0x100;
    JumpWord(sign, mid10, bit11, high8, sign * 0x8_0000 + mid10 * 0x200 + bit11 * 0x100 + high8, rd);
    FieldsJ(offset, rd);
  }
}
