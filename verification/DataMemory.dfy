/** rtl/data_mem, rtl/we_decoder and rtl/ld_decoder: a byte array with a
    lane-enabled write port and a little-endian word read port. */
module DataMemory {
  import opened Words

  const SIZE := 0x2_0000

  type Address = x: int | 0 <= x < 0x2_0000
  type Memory = m: seq<Byte> | |m| == 0x2_0000 witness seq(0x2_0000, _ => 0)

  datatype Lanes = Lanes(we0: bool, we1: bool, we2: bool, we3: bool)

  /** ALUResultM[16:0]. */
  function AddressOf(w: Word): Address {
    w % SIZE
  }

  function ByteOf(w: Word, i: nat): Byte
    requires i < 4
  {
    match i
    case 0 => w % 0x100
    case 1 => w / 0x100 % 0x100
    case 2 => w / 0x1_0000 % 0x100
    case _ => w / 0x100_0000
  }

  /** rtl/we_decoder/we_decoder.sv. */
  function WriteEnables(funct3: U3, memWrite: bool): Lanes {
    if !memWrite then Lanes(false, false, false, false)
    else match funct3
      case 0 => Lanes(true, false, false, false)
      case 1 => Lanes(true, true, false, false)
      case 2 => Lanes(true, true, true, true)
      case _ => Lanes(false, false, false, false)
  }

  /** An indexed read; past the end of the array it gives zero. */
  function ReadByte(m: Memory, i: nat): Byte {
    if i < SIZE then m[i] else 0
  }

  /** An indexed, enabled write; past the end of the array it has no effect. */
  function WriteByte(m: Memory, i: nat, b: Byte, enable: bool): Memory {
    if enable && i < SIZE then m[i := b] else m
  }

  /** rtl/data_mem/data_mem.sv:24-36. */
  function WriteLanes(m: Memory, a: Address, wd: Word, we: Lanes): Memory {
    var m0 := WriteByte(m, a, ByteOf(wd, 0), we.we0);
    var m1 := WriteByte(m0, a + 1, ByteOf(wd, 1), we.we1);
    var m2 := WriteByte(m1, a + 2, ByteOf(wd, 2), we.we2);
    WriteByte(m2, a + 3, ByteOf(wd, 3), we.we3)
  }

  /** rtl/data_mem/data_mem.sv:38. */
  function ReadWord(m: Memory, a: Address): Word {
    ReadByte(m, a) + 0x100 * ReadByte(m, a + 1) + 0x1_0000 * ReadByte(m, a + 2) + 0x100_0000 * ReadByte(m, a + 3)
  }

  /** rtl/ld_decoder/ld_decoder.sv. */
  function LoadDecode(rd: Word, funct3: U3): Word {
    match funct3
    case 0 => rd / 0x80 % 2 * 0xFFFF_FF00 + rd % 0x100
    case 1 => rd / 0x8000 % 2 * 0xFFFF_0000 + rd % 0x1_0000
    case 2 => rd
    case 4 => rd % 0x100
    case 5 => rd % 0x1_0000
    case _ => 0
  }

  // -------------------------------------------------------- stores and loads

  predicate Lane(we: Lanes, i: nat)
    requires i < 4
  {
    match i
    case 0 => we.we0
    case 1 => we.we1
    case 2 => we.we2
    case _ => we.we3
  }

  /** Byte i after a lane-enabled write at a. */
  lemma ByteAfterWrite(m: Memory, a: Address, wd: Word, we: Lanes, i: nat)
    ensures ReadByte(WriteLanes(m, a, wd, we), i) ==
      if a <= i < a + 4 && i < SIZE && Lane(we, i - a) then ByteOf(wd, i - a) else ReadByte(m, i)
  {
  }

  /** The number of bytes a load or store accesses; 0 for the other funct3 values. */
  function StoreSize(funct3: U3): nat {
    match funct3
    case 0 => 1
    case 1 => 2
    case 2 => 4
    case _ => 0
  }

  /** The little-endian number held in n bytes from a. */
  function LittleEndian(m: Memory, a: nat, n: nat): nat
    decreases n
  {
    if n == 0 then 0 else ReadByte(m, a) + 0x100 * LittleEndian(m, a + 1, n - 1)
  }

  /** An n-byte unsigned number read as signed. */
  function SignedBytes(x: nat, n: nat): int {
    if n == 1 then (if x < 0x80 then x else x - 0x100)
    else if n == 2 then (if x < 0x8000 then x else x - 0x1_0000)
    else if x < 0x8000_0000 then x else x - TWO_32
  }

  /** A store of size k changes exactly bytes a..a+k-1, to the low bytes of the word. */
  lemma StoreBytes(m: Memory, a: Address, wd: Word, funct3: U3, i: nat)
    requires a + StoreSize(funct3) <= SIZE
    ensures ReadByte(WriteLanes(m, a, wd, WriteEnables(funct3, true)), i) ==
      if a <= i < a + StoreSize(funct3) then ByteOf(wd, i - a) else ReadByte(m, i)
    ensures WriteLanes(m, a, wd, WriteEnables(funct3, false)) == m
  {
    hide WriteLanes;
    ByteAfterWrite(m, a, wd, WriteEnables(funct3, true), i);
    NothingWritten(m, a, wd);
  }

  lemma NothingWritten(m: Memory, a: Address, wd: Word)
    ensures WriteLanes(m, a, wd, Lanes(false, false, false, false)) == m
  {
  }

  lemma LittleEndianUpTo4(m: Memory, a: nat)
    ensures LittleEndian(m, a, 1) == ReadByte(m, a)
    ensures LittleEndian(m, a, 2) == ReadByte(m, a) + 0x100 * ReadByte(m, a + 1)
    ensures LittleEndian(m, a, 4) ==
      ReadByte(m, a) + 0x100 * ReadByte(m, a + 1) + 0x1_0000 * ReadByte(m, a + 2) + 0x100_0000 * ReadByte(m, a + 3)
  {
    assert forall b: nat :: LittleEndian(m, b, 1) == ReadByte(m, b) + 0x100 * LittleEndian(m, b + 1, 0);
    assert LittleEndian(m, a, 2) == ReadByte(m, a) + 0x100 * LittleEndian(m, a + 1, 1);
    assert LittleEndian(m, a + 1, 3) == ReadByte(m, a + 1) + 0x100 * LittleEndian(m, a + 2, 2);
    assert LittleEndian(m, a + 2, 2) == ReadByte(m, a + 2) + 0x100 * LittleEndian(m, a + 3, 1);
  }

  lemma LowBytes(b0: Byte, b1: Byte, b2: Byte, b3: Byte)
    ensures var w := b0 + 0x100 * b1 + 0x1_0000 * b2 + 0x100_0000 * b3;
      && w % 0x100 == b0 && w / 0x80 % 2 == b0 / 0x80
      && w % 0x1_0000 == b0 + 0x100 * b1 && w / 0x8000 % 2 == b1 / 0x80
  {
    var w := b0 + 0x100 * b1 + 0x1_0000 * b2 + 0x100_0000 * b3;
    var x1, x2 := b1 + 0x100 * b2 + 0x1_0000 * b3, b2 + 0x100 * b3;
    QuotientUnique(w, 0x100, x1, b0);
    QuotientUnique(w, 0x80, b0 / 0x80 + 2 * x1, b0 % 0x80);
    QuotientUnique(b0 / 0x80 + 2 * x1, 2, x1, b0 / 0x80);
    QuotientUnique(w, 0x1_0000, x2, b0 + 0x100 * b1);
    QuotientUnique(w, 0x8000, b1 / 0x80 + 2 * x2, b0 + 0x100 * (b1 % 0x80));
    QuotientUnique(b1 / 0x80 + 2 * x2, 2, x2, b1 / 0x80);
  }

  lemma ExtendBytes(w: Word, b0: Byte, b1: Byte)
    requires w % 0x100 == b0 && w / 0x80 % 2 == b0 / 0x80
    requires w % 0x1_0000 == b0 + 0x100 * b1 && w / 0x8000 % 2 == b1 / 0x80
    ensures LoadDecode(w, 0) == Wrap(SignedBytes(b0, 1))
    ensures LoadDecode(w, 1) == Wrap(SignedBytes(b0 + 0x100 * b1, 2))
    ensures LoadDecode(w, 2) == Wrap(SignedBytes(w, 4))
  {
  }

  /** LB, LH, LW, LBU and LHU are the sign- or zero-extended little-endian readings of
      the bytes at a, aligned or not; the other funct3 values give zero. */
  lemma LoadReads(m: Memory, a: Address, funct3: U3)
    ensures LoadDecode(ReadWord(m, a), funct3) ==
      match funct3
      case 0 => Wrap(SignedBytes(LittleEndian(m, a, 1), 1))
      case 1 => Wrap(SignedBytes(LittleEndian(m, a, 2), 2))
      case 2 => Wrap(SignedBytes(LittleEndian(m, a, 4), 4))
      case 4 => LittleEndian(m, a, 1)
      case 5 => LittleEndian(m, a, 2)
      case _ => 0
  {
    hide ReadByte, SignedBytes, LittleEndian, Wrap;
    LittleEndianUpTo4(m, a);
    LowBytes(ReadByte(m, a), ReadByte(m, a + 1), ReadByte(m, a + 2), ReadByte(m, a + 3));
    ExtendBytes(ReadWord(m, a), ReadByte(m, a), ReadByte(m, a + 1));
  }

  lemma BytesOfSum(b0: Byte, b1: Byte, b2: Byte, b3: Byte)
    ensures var w := b0 + 0x100 * b1 + 0x1_0000 * b2 + 0x100_0000 * b3;
      ByteOf(w, 0) == b0 && ByteOf(w, 1) == b1 && ByteOf(w, 2) == b2 && ByteOf(w, 3) == b3
  {
    var w := b0 + 0x100 * b1 + 0x1_0000 * b2 + 0x100_0000 * b3;
    assert w / 0x100 == b1 + 0x100 * b2 + 0x1_0000 * b3;
    assert w / 0x1_0000 == b2 + 0x100 * b3;
    assert w / 0x100_0000 == b3;
  }

  lemma WordOfBytes(w: Word)
    ensures w % 0x1_0000 == ByteOf(w, 0) + 0x100 * ByteOf(w, 1)
    ensures w == ByteOf(w, 0) + 0x100 * ByteOf(w, 1) + 0x1_0000 * ByteOf(w, 2) + 0x100_0000 * ByteOf(w, 3)
  {
    assert w / 0x1_0000 == ByteOf(w, 2) + 0x100 * ByteOf(w, 3);
    assert w / 0x100 == ByteOf(w, 1) + 0x100 * (w / 0x1_0000);
  }

  /** Round trip: loading what was just stored, at the same size, gives the stored low
      bytes back; a load of n bytes elsewhere is unaffected. */
  lemma StoreThenLoad(m: Memory, a: Address, wd: Word, funct3: U3, b: Address, n: nat)
    requires a + StoreSize(funct3) <= SIZE && n in {1, 2, 4}
    ensures var m' := WriteLanes(m, a, wd, WriteEnables(funct3, true));
      && (funct3 == 0 ==> LittleEndian(m', a, 1) == wd % 0x100)
      && (funct3 == 1 ==> LittleEndian(m', a, 2) == wd % 0x1_0000)
      && (funct3 == 2 ==> LittleEndian(m', a, 4) == wd)
      && (b + n <= a || a + StoreSize(funct3) <= b ==> LittleEndian(m', b, n) == LittleEndian(m, b, n))
  {
    hide WriteLanes, ReadByte, LittleEndian;
    var m' := WriteLanes(m, a, wd, WriteEnables(funct3, true));
    forall i: nat
      ensures ReadByte(m', i) == if a <= i < a + StoreSize(funct3) then ByteOf(wd, i - a) else ReadByte(m, i)
    {
      StoreBytes(m, a, wd, funct3, i);
    }
    LittleEndianUpTo4(m', a);
    LittleEndianUpTo4(m', b);
    LittleEndianUpTo4(m, b);
    WordOfBytes(wd);
  }
}
