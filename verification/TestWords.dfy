/** Instruction words of programs/single_instruction_tests: each is the encoding of the
    instruction of its source line. */
module TestWords {
  import opened Words
  import opened Isa
  import opened PdfCode

  /** A word by the weights of its fields. */
  lemma Weighed(high: U7, mid: Reg, rs1: Reg, funct3: U3, low: Reg, opcode: U7)
    ensures Pack(high, mid, rs1, funct3, low, opcode) ==
      opcode + 0x80 * low + 0x1000 * funct3 + 0x8000 * rs1 + 0x10_0000 * mid + 0x200_0000 * high
  {
  }

  /** r-type: op a1, a2, a3. */
  lemma RegisterWords(op: AluOp)
    ensures op == ADD ==> Encode(Op(op, A1, A2, A3)) == 0x00D6_05B3
    ensures op == SUB ==> Encode(Op(op, A1, A2, A3)) == 0x40D6_05B3
    ensures op == SLL ==> Encode(Op(op, A1, A2, A3)) == 0x00D6_15B3
    ensures op == SLT ==> Encode(Op(op, A1, A2, A3)) == 0x00D6_25B3
    ensures op == XOR ==> Encode(Op(op, A1, A2, A3)) == 0x00D6_45B3
    ensures op == OR ==> Encode(Op(op, A1, A2, A3)) == 0x00D6_65B3
    ensures op == AND ==> Encode(Op(op, A1, A2, A3)) == 0x00D6_75B3
  {
    hide Pack;
    Weighed(AluFunct7(op), A3, A2, AluFunct3(op), A1, 0x33);
  }

  /** i-type: ADDI a0, x0 of a small constant, and SLLI a1, a0, 2. */
  lemma ImmediateWords()
    ensures Encode(OpImm(ADD, A0, 0, 0x123)) == 0x1230_0513
    ensures Encode(OpImm(ADD, A1, 0, 5)) == 0x0050_0593
    ensures Encode(OpImm(SLL, A1, A0, 2)) == 0x0025_1593
  {
    hide Pack;
    Weighed(9, 3, 0, 0, A0, 0x13);
    Weighed(0, 5, 0, 0, A1, 0x13);
    Weighed(0, 2, A0, 1, A1, 0x13);
  }

  /** The byte and half-word loads of a0 from 7(a1), and LW a0, 0(a1). */
  lemma LoadWords(lop: LoadOp)
    ensures lop == LW ==> Encode(Load(lop, A0, A1, 0)) == 0x0005_A503
    ensures lop == LB ==> Encode(Load(lop, A0, A1, 7)) == 0x0075_8503
    ensures lop == LH ==> Encode(Load(lop, A0, A1, 7)) == 0x0075_9503
    ensures lop == LBU ==> Encode(Load(lop, A0, A1, 7)) == 0x0075_C503
    ensures lop == LHU ==> Encode(Load(lop, A0, A1, 7)) == 0x0075_D503
  {
    hide Pack;
    Weighed(0, 0, A1, LoadFunct3(lop), A0, 0x03);
    Weighed(0, 7, A1, LoadFunct3(lop), A0, 0x03);
  }

  /** s-type: SB a0, 5(x0) and SH a0, 4(x0). */
  lemma StoreWords()
    ensures Encode(Store(SB, 0, A0, 5)) == 0x00A0_02A3
    ensures Encode(Store(SH, 0, A0, 4)) == 0x00A0_1223
  {
    hide Pack;
    Weighed(0, A0, 0, 0, 5, 0x23);
    Weighed(0, A0, 0, 1, 4, 0x23);
  }

  /** b-type: each branch on a1 and a2, two instructions back. */
  lemma BranchWords(bop: BranchOp)
    ensures Encode(Branch(bop, A1, A2, -8)) ==
      match bop
      case BEQ => 0xFEC5_8CE3 case BNE => 0xFEC5_9CE3 case BLT => 0xFEC5_CCE3
      case BGE => 0xFEC5_DCE3 case BLTU => 0xFEC5_ECE3 case BGEU => 0xFEC5_FCE3
  {
    hide Pack;
    assert (-8) % 0x2000 == 0x1FF8;
    assert 0x1FF8 / 0x1000 == 1 && 0x1FF8 / 0x20 % 0x40 == 63 && 0x1FF8 / 2 % 0x10 == 12 && 0x1FF8 / 0x800 % 2 == 1;
    Weighed(127, A2, A1, BranchFunct3(bop), 25, 0x63);
  }

  /** BEQ t0, t1 six instructions on, and BEQ x0, x0 six back. */
  lemma LoopWords()
    ensures Encode(Branch(BEQ, T0, T1, 24)) == 0x0062_8C63
    ensures Encode(Branch(BEQ, 0, 0, -24)) == 0xFE00_04E3
  {
    hide Pack, PackB;
    assert PackB(24, T1, T0, 0) == Pack(0, T1, T0, 0, 24, 0x63) by { Forward(24, T1, T0); }
    assert PackB(-24, 0, 0, 0) == Pack(127, 0, 0, 0, 9, 0x63) by { Backward(-24, 0, 0); }
    Weighed(0, T1, T0, 0, 24, 0x63);
    Weighed(127, 0, 0, 0, 9, 0x63);
  }

  lemma Forward(offset: int, rs2: Reg, rs1: Reg)
    requires offset == 24
    ensures PackB(offset, rs2, rs1, 0) == Pack(0, rs2, rs1, 0, 24, 0x63)
  {
    hide Pack;
    assert 24 / 0x1000 == 0 && 24 / 0x20 % 0x40 == 0 && 24 / 2 % 0x10 == 12 && 24 / 0x800 % 2 == 0;
  }

  lemma Backward(offset: int, rs2: Reg, rs1: Reg)
    requires offset == -24
    ensures PackB(offset, rs2, rs1, 0) == Pack(127, rs2, rs1, 0, 9, 0x63)
  {
    hide Pack;
    assert (-24) % 0x2000 == 0x1FE8;
    assert 0x1FE8 / 0x1000 == 1 && 0x1FE8 / 0x20 % 0x40 == 63 && 0x1FE8 / 2 % 0x10 == 4 && 0x1FE8 / 0x800 % 2 == 1;
  }

  /** JAL ra, 8; JALR ra, a0, 8; JALR x0, ra, 0. */
  lemma JumpWords()
    ensures Encode(Jal(RA, 8)) == 0x0080_00EF
    ensures Encode(Jalr(RA, A0, 8)) == 0x0085_00E7
    ensures Encode(Jalr(0, RA, 0)) == 0x0000_8067
  {
    hide Pack, PackJ, PackU;
    ShortJump(4);
    UpperWord();
    Weighed(0, 8, A0, 0, RA, 0x67);
    Weighed(0, 0, RA, 0, 0, 0x67);
  }

  lemma UpperWord()
    ensures PackU(0x800, RA, 0x6F) == 0x0080_00EF
  {
    hide Pack;
    Weighed(0, 8, 0, 0, RA, 0x6F);
  }

  /** u-type. */
  lemma UpperWords(imm20: int)
    requires 0 <= imm20 < 0x10_0000
    ensures Encode(Lui(A1, imm20)) == imm20 * 0x1000 + 0x5B7
    ensures Encode(Auipc(A1, imm20)) == imm20 * 0x1000 + 0x597
  {
    hide Pack;
    Weighed(imm20 / 0x2000, imm20 / 0x100 % 0x20, imm20 / 8 % 0x20, imm20 % 8, A1, 0x37);
    Weighed(imm20 / 0x2000, imm20 / 0x100 % 0x20, imm20 / 8 % 0x20, imm20 % 8, A1, 0x17);
    ByFields(imm20);
  }

  lemma ByFields(x: nat)
    requires x < 0x10_0000
    ensures x == x % 8 + 8 * (x / 8 % 0x20) + 0x100 * (x / 0x100 % 0x20) + 0x2000 * (x / 0x2000)
  {
    var y, z := x / 8, x / 0x100;
    QuotientUnique(x, 0x100, y / 0x20, x % 8 + 8 * (y % 0x20));
    QuotientUnique(x, 0x2000, z / 0x20, x % 0x100 + 0x100 * (z % 0x20));
  }

  /** LUI a1, 0x15 and AUIPC a1, 0x55718. */
  lemma ListedUppers()
    ensures Encode(Lui(A1, 0x15)) == 0x0001_55B7
    ensures Encode(Auipc(A1, 0x55718)) == 0x5571_8597
  {
    hide PackU;
    UpperWords(0x15);
    UpperWords(0x55718);
  }
}
