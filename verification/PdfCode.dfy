/** programs/pdf/pdf.s as machine code: the instructions, their words in
    programs/pdf/instr_mem.mem, and the shape of every execution. */
module PdfCode {
  import opened Words
  import opened Isa

  const LENGTH := 28

  const MAIN := 0
  const DISPLAY_CALL := 2
  const INIT := 4
  const INIT_LOOP := 5
  const BUILD := 9
  const BUILD_LOOP := 13
  const DISPLAY := 22

  // Registers by their assembly names.
  const RA: Reg := 1
  const T0: Reg := 5
  const T1: Reg := 6
  const A0: Reg := 10
  const A1: Reg := 11
  const A2: Reg := 12
  const A3: Reg := 13
  const A4: Reg := 14
  const A5: Reg := 15
  const A6: Reg := 16

  function Code(i: nat): Instr {
    match i
    // main
    case 0 => Jal(RA, 16)
    case 1 => Jal(RA, 32)
    case 2 => Jal(RA, 80)
    case 3 => Jal(0, -4)
    // init
    case 4 => OpImm(ADD, A1, 0, 0x100)
    case 5 => OpImm(ADD, A1, A1, -1)
    case 6 => Store(SB, A1, 0, 0x100)
    case 7 => Branch(BNE, A1, 0, -8)
    case 8 => Jalr(0, RA, 0)
    // build
    case 9 => Lui(A1, 0x10)
    case 10 => OpImm(ADD, A2, 0, 0)
    case 11 => OpImm(ADD, A3, 0, 0x100)
    case 12 => OpImm(ADD, A4, 0, 200)
    case 13 => Op(ADD, A5, A1, A2)
    case 14 => Load(LBU, T0, A5, 0)
    case 15 => Op(ADD, A6, T0, A3)
    case 16 => Load(LBU, T1, A6, 0)
    case 17 => OpImm(ADD, T1, T1, 1)
    case 18 => Store(SB, A6, T1, 0)
    case 19 => OpImm(ADD, A2, A2, 1)
    case 20 => Branch(BNE, T1, A4, -28)
    case 21 => Jalr(0, RA, 0)
    // display
    case 22 => OpImm(ADD, A1, 0, 0)
    case 23 => OpImm(ADD, A2, 0, 255)
    case 24 => Load(LBU, A0, A1, 0x100)
    case 25 => OpImm(ADD, A1, A1, 1)
    case 26 => Branch(BNE, A1, A2, -8)
    case 27 => Jalr(0, RA, 0)
    case _ => OpImm(ADD, 0, 0, 0)
  }

  function Image(i: nat): Word {
    match i
    case 0 => 0x0100_00EF
    case 1 => 0x0200_00EF
    case 2 => 0x0500_00EF
    case 3 => 0xFFDF_F06F
    case 4 => 0x1000_0593
    case 5 => 0xFFF5_8593
    case 6 => 0x1005_8023
    case 7 => 0xFE05_9CE3
    case 8 => 0x0000_8067
    case 9 => 0x0001_05B7
    case 10 => 0x0000_0613
    case 11 => 0x1000_0693
    case 12 => 0x0C80_0713
    case 13 => 0x00C5_87B3
    case 14 => 0x0007_C283
    case 15 => 0x00D2_8833
    case 16 => 0x0008_4303
    case 17 => 0x0013_0313
    case 18 => 0x0068_0023
    case 19 => 0x0016_0613
    case 20 => 0xFEE3_12E3
    case 21 => 0x0000_8067
    case 22 => 0x0000_0593
    case 23 => 0x0FF0_0613
    case 24 => 0x1005_C503
    case 25 => 0x0015_8593
    case 26 => 0xFEC5_9CE3
    case 27 => 0x0000_8067
    case _ => 0
  }

  lemma CodeWellFormed(i: nat)
    ensures WellFormed(Code(i))
  {
  }

  // The encodings, format by format: each line is a computation on constants.

  lemma PackedImmediates()
    ensures PackI(0x100, 0, 0, A1, 0x13) == 0x1000_0593
    ensures PackI(-1, A1, 0, A1, 0x13) == 0xFFF5_8593
    ensures PackI(0, 0, 0, A1, 0x13) == 0x0000_0593
    ensures PackI(0, 0, 0, A2, 0x13) == 0x0000_0613
    ensures PackI(0x100, 0, 0, A3, 0x13) == 0x1000_0693
    ensures PackI(200, 0, 0, A4, 0x13) == 0x0C80_0713
    ensures PackI(1, T1, 0, T1, 0x13) == 0x0013_0313
    ensures PackI(1, A2, 0, A2, 0x13) == 0x0016_0613
    ensures PackI(255, 0, 0, A2, 0x13) == 0x0FF0_0613
    ensures PackI(1, A1, 0, A1, 0x13) == 0x0015_8593
  {
  }

  lemma PackedLoads()
    ensures PackI(0, A5, 4, T0, 0x03) == 0x0007_C283
    ensures PackI(0, A6, 4, T1, 0x03) == 0x0008_4303
    ensures PackI(0x100, A1, 4, A0, 0x03) == 0x1005_C503
    ensures PackI(0, RA, 0, 0, 0x67) == 0x0000_8067
  {
  }

  lemma PackedStores()
    ensures PackS(0x100, 0, A1, 0) == 0x1005_8023
    ensures PackS(0, T1, A6, 0) == 0x0068_0023
  {
  }

  /** A branch two instructions back. */
  lemma BackTwo(rs2: Reg)
    ensures PackB(-8, rs2, A1, 1) == Pack(127, rs2, A1, 1, 25, 0x63)
  {
    hide Pack;
    assert (-8) % 0x2000 == 0x1FF8;
    assert 0x1FF8 / 0x1000 == 1 && 0x1FF8 / 0x20 % 0x40 == 63 && 0x1FF8 / 2 % 0x10 == 12 && 0x1FF8 / 0x800 % 2 == 1;
  }

  lemma PackedBranches()
    ensures PackB(-8, 0, A1, 1) == Pack(127, 0, A1, 1, 25, 0x63)
    ensures PackB(-28, A4, T1, 1) == Pack(127, A4, T1, 1, 5, 0x63)
    ensures PackB(-8, A2, A1, 1) == Pack(127, A2, A1, 1, 25, 0x63)
  {
    hide Pack;
    BackTwo(0);
    BackTwo(A2);
    assert PackB(-28, A4, T1, 1) == Pack(127, A4, T1, 1, 5, 0x63) by {
      assert (-28) % 0x2000 == 0x1FE4;
      assert 0x1FE4 / 0x1000 == 1 && 0x1FE4 / 0x20 % 0x40 == 63 && 0x1FE4 / 2 % 0x10 == 2 && 0x1FE4 / 0x800 % 2 == 1;
    }
  }

  /** A short jump forward, by 2 * m. */
  lemma ShortJump(m: nat)
    requires m < 0x400
    ensures PackJ(2 * m, RA) == PackU(0x200 * m, RA, 0x6F)
  {
    hide PackU;
    QuotientUnique(2 * m, 0x20_0000, 0, 2 * m);
    QuotientUnique(2 * m, 0x10_0000, 0, 2 * m);
    QuotientUnique(2 * m, 0x800, 0, 2 * m);
    QuotientUnique(2 * m, 0x1000, 0, 2 * m);
    QuotientUnique(m, 0x400, 0, m);
  }

  lemma PackedJumps()
    ensures PackJ(16, RA) == PackU(0x1000, RA, 0x6F)
    ensures PackJ(32, RA) == PackU(0x2000, RA, 0x6F)
    ensures PackJ(80, RA) == PackU(0x5000, RA, 0x6F)
  {
    hide PackU, PackJ;
    ShortJump(8);
    ShortJump(16);
    ShortJump(40);
  }

  lemma PackedBack()
    ensures PackJ(-4, 0) == PackU(0xFFDFF, 0, 0x6F)
  {
    hide PackU;
    assert PackJ(-4, 0) == PackU(0xFFDFF, 0, 0x6F) by {
      assert (-4) % 0x20_0000 == 0x1FFFFC;
      assert 0x1FFFFC / 0x10_0000 == 1 && 0x1FFFFC / 2 % 0x400 == 1022 && 0x1FFFFC / 0x800 % 2 == 1
        && 0x1FFFFC / 0x1000 % 0x100 == 255;
    }
  }

  lemma PackedUppers()
    ensures PackU(0x1000, RA, 0x6F) == Pack(0, 16, 0, 0, RA, 0x6F)
    ensures PackU(0x2000, RA, 0x6F) == Pack(1, 0, 0, 0, RA, 0x6F)
    ensures PackU(0x5000, RA, 0x6F) == Pack(2, 16, 0, 0, RA, 0x6F)
    ensures PackU(0xFFDFF, 0, 0x6F) == Pack(127, 29, 31, 7, 0, 0x6F)
  {
    hide Pack;
    assert 0x1000 / 0x2000 == 0 && 0x1000 / 0x100 % 0x20 == 16 && 0x1000 / 8 % 0x20 == 0 && 0x1000 % 8 == 0;
    assert 0x2000 / 0x2000 == 1 && 0x2000 / 0x100 % 0x20 == 0 && 0x2000 / 8 % 0x20 == 0 && 0x2000 % 8 == 0;
    assert 0x5000 / 0x2000 == 2 && 0x5000 / 0x100 % 0x20 == 16 && 0x5000 / 8 % 0x20 == 0 && 0x5000 % 8 == 0;
    assert 0xFFDFF / 0x2000 == 127 && 0xFFDFF / 0x100 % 0x20 == 29 && 0xFFDFF / 8 % 0x20 == 31 && 0xFFDFF % 8 == 7;
  }

  lemma PackedFields()
    ensures Pack(127, 0, A1, 1, 25, 0x63) == 0xFE05_9CE3
    ensures Pack(127, A4, T1, 1, 5, 0x63) == 0xFEE3_12E3
    ensures Pack(127, A2, A1, 1, 25, 0x63) == 0xFEC5_9CE3
    ensures Pack(0, 16, 0, 0, RA, 0x6F) == 0x0100_00EF
    ensures Pack(1, 0, 0, 0, RA, 0x6F) == 0x0200_00EF
    ensures Pack(2, 16, 0, 0, RA, 0x6F) == 0x0500_00EF
    ensures Pack(127, 29, 31, 7, 0, 0x6F) == 0xFFDF_F06F
  {
  }

  lemma PackedOthers()
    ensures Pack(0, A2, A1, 0, A5, 0x33) == 0x00C5_87B3
    ensures Pack(0, A3, T0, 0, A6, 0x33) == 0x00D2_8833
    ensures PackU(0x10, A1, 0x37) == 0x0001_05B7
  {
  }

  /** The words of programs/pdf/instr_mem.mem are the encodings of the instructions of pdf.s. */
  lemma ImageEncodes(i: nat)
    requires i < LENGTH
    ensures WellFormed(Code(i)) && Encode(Code(i)) == Image(i)
  {
    hide Pack, PackI, PackS, PackB, PackJ, PackU;
    CodeWellFormed(i);
    PackedJumps();
    PackedBack();
    PackedImmediates();
    PackedLoads();
    PackedStores();
    PackedBranches();
    PackedUppers();
    PackedFields();
    PackedOthers();
  }
}
