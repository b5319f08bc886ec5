/** rtl/control_unit: the opcode and ALU decoders; rtl/sign_extend. */
module ControlUnit {
  import opened Words

  datatype MainControl = MainControl(
    regWrite: bool, immSrc: U3, aluSrc: bool, memWrite: bool, memRead: bool,
    resultSrc: U2, branch: bool, aluOp: U3, jump: bool)

  const OP_LOAD: U7 := 0x03
  const OP_IMM: U7 := 0x13
  const OP_AUIPC: U7 := 0x17
  const OP_STORE: U7 := 0x23
  const OP_REG: U7 := 0x33
  const OP_LUI: U7 := 0x37
  const OP_BRANCH: U7 := 0x63
  const OP_JALR: U7 := 0x67
  const OP_JAL: U7 := 0x6F

  /** rtl/control_unit/decoders/main_decoder.sv. */
  function MainDecoder(op: U7): MainControl {
    if op == OP_LOAD then MainControl(true, 0, true, false, true, 1, false, 0, false)
    else if op == OP_STORE then MainControl(false, 1, true, true, false, 0, false, 0, false)
    else if op == OP_REG then MainControl(true, 0, false, false, false, 0, false, 2, false)
    else if op == OP_IMM then MainControl(true, 0, true, false, false, 0, false, 2, false)
    else if op == OP_BRANCH then MainControl(false, 2, false, false, false, 0, true, 1, false)
    else if op == OP_AUIPC then MainControl(true, 3, true, false, false, 2, false, 4, false)
    else if op == OP_LUI then MainControl(true, 3, true, false, false, 0, false, 4, false)
    else if op == OP_JALR then MainControl(true, 0, true, false, false, 2, true, 3, true)
    else if op == OP_JAL then MainControl(true, 4, false, false, false, 2, true, 4, false)
    else MainControl(false, 0, false, false, false, 0, false, 0, true)
  }

  /** rtl/control_unit/decoders/alu_decoder.sv. */
  function AluDecoder(op: U7, funct3: U3, funct7Bit5: bool, aluOp: U3): U4 {
    match aluOp
    case 1 => 1
    case 4 => 11
    case 2 =>
      (match funct3
       case 0 => if op / 32 % 2 == 1 && funct7Bit5 then 1 else 0
       case 1 => 2
       case 2 => 3
       case 3 => 4
       case 4 => 5
       case 5 => if funct7Bit5 then 7 else 6
       case 6 => 8
       case _ => 9)
    case _ => 0
  }

  /** Of funct7 only bit 5 is looked at, and only to tell SUB from ADD between registers, and
      SRA from SRL. */
  lemma Funct7Matters(op: U7, funct3: U3, aluOp: U3)
    ensures AluDecoder(op, funct3, true, aluOp) != AluDecoder(op, funct3, false, aluOp) <==>
      aluOp == 2 && (funct3 == 5 || (funct3 == 0 && op / 32 % 2 == 1))
  {
  }

  // Field extraction, rtl/risc_v.sv:165-170.
  function Opcode(instr: Word): U7 { instr % 0x80 }
  function Rd(instr: Word): Reg { instr / 0x80 % 0x20 }
  function Funct3(instr: Word): U3 { instr / 0x1000 % 8 }
  function Rs1(instr: Word): Reg { instr / 0x8000 % 0x20 }
  function Rs2(instr: Word): Reg { instr / 0x10_0000 % 0x20 }
  predicate Funct7Bit5(instr: Word) { instr / 0x4000_0000 % 2 == 1 }

  /** rtl/sign_extend/sign_extend.sv: each arm is the value of its concatenation. */
  function SignExtend(instr: Word, immSrc: U3): Word {
    var sign := instr / 0x8000_0000;
    assert sign <= 1 && instr / 0x200_0000 < 0x80 && instr / 0x10_0000 < 0x1000;
    assert sign == 1 ==> instr / 0x10_0000 >= 0x800;
    match immSrc
    case 1 => sign * 0xFFFF_F000 + instr / 0x200_0000 * 0x20 + instr / 0x80 % 0x20
    case 2 => sign * 0xFFFF_F000 + instr / 0x80 % 2 * 0x800 + instr / 0x200_0000 % 0x40 * 0x20
      + instr / 0x100 % 0x10 * 2
    case 3 => instr / 0x1000 * 0x1000
    case 4 => sign * 0xFFF0_0000 + instr / 0x1000 % 0x100 * 0x1000 + instr / 0x10_0000 % 2 * 0x800
      + instr / 0x20_0000 % 0x400 * 2
    case _ => sign * 0xFFFF_F000 + instr / 0x10_0000
  }
}
