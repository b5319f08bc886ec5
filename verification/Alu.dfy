/** rtl/alu/alu.sv and rtl/flags/flags.sv. */
module Alu {
  import opened Words
  import CU = ControlUnit

  datatype Flags = Flags(zero: bool, n: bool, c: bool, v: bool)

  /** {C, ALUResult} as computed by the case on ALUControl; the sum and the
      difference are taken on 33 bits and C is bit 32. */
  function ResultAndCarry(a: Word, b: Word, control: U4): (Word, bool) {
    match control
    case 0 => ((a + b) % TWO_32, (a + b) / TWO_32 % 2 == 1)
    case 1 => ((a - b) % TWO_32, (a - b) / TWO_32 % 2 == 1)
    case 2 => (ShiftLeft(a, b % 32), false)
    case 3 => (SetLessThan(a, b), false)
    case 4 => (Flag(a < b), false)
    case 5 => (Logic(Xor, a, b), false)
    case 6 => (ShiftRight(a, b % 32), false)
    case 7 => (ShiftRightArithmetic(a, b % 32), false)
    case 8 => (Logic(Or, a, b), false)
    case 9 => (Logic(And, a, b), false)
    case 11 => (b, false)
    case _ => (0, false)
  }

  function Logic(g: Gate, a: Word, b: Word): Word {
    Pow2Of32();
    Bitwise(g, a, b, 32)
  }

  /** The case on the two sign bits; equal negative signs compare the low 31 bits. */
  function SetLessThan(a: Word, b: Word): Word {
    if !Negative(a) && !Negative(b) then Flag(a < b)
    else if !Negative(a) then 0
    else if !Negative(b) then 1
    else Flag(a % TWO_31 < b % TWO_31)
  }

  /** For a negative operand, the vacated positions are filled by OR-ing in the
      complement of an all-ones word shifted by the same amount. */
  function ShiftRightArithmetic(a: Word, n: nat): Word {
    if Negative(a)
    then Logic(Or, TWO_32 - 1 - ShiftRight(TWO_32 - 1, n), ShiftRight(a, n))
    else ShiftRight(a, n)
  }

  function Result(a: Word, b: Word, control: U4): Word {
    ResultAndCarry(a, b, control).0
  }

  /** V is the overflow condition of an addition whatever the operation is. */
  function FlagsOf(a: Word, b: Word, control: U4): Flags {
    var (r, c) := ResultAndCarry(a, b, control);
    Flags(r == 0, Negative(r), c, Negative(a) == Negative(b) && Negative(a) != Negative(r))
  }

  /** rtl/flags/flags.sv: PCSrc from the opcode, funct3 and the flags. */
  predicate PCSrc(op: U7, funct3: U3, f: Flags, branch: bool) {
    var signedGreaterThan := (!f.n && !f.v) || f.zero || (f.n && f.v);
    if op / 32 == 3 && op % 8 == 7 then true
    else if op / 32 == 3 && op % 4 == 3 then
      match funct3
      case 0 => branch && f.zero
      case 1 => branch && !f.zero
      case 4 => branch && !signedGreaterThan
      case 5 => branch && signedGreaterThan
      case 6 => branch && f.c
      case 7 => branch && !f.c
      case _ => false
    else false
  }

  // ---------------------------------------------------------------- arithmetic

  /** ADD is addition modulo 2^32 and its carry flag the unsigned carry out. */
  lemma Add(a: Word, b: Word)
    ensures Result(a, b, 0) == Wrap(Signed(a) + Signed(b))
    ensures FlagsOf(a, b, 0).c <==> a + b >= TWO_32
  {
    WrapShift(a + b, Signed(a) + Signed(b));
  }

  /** SUB is subtraction modulo 2^32 and its carry flag exactly the unsigned borrow. */
  lemma Sub(a: Word, b: Word)
    ensures Result(a, b, 1) == Wrap(Signed(a) - Signed(b))
    ensures FlagsOf(a, b, 1).c <==> a < b
    ensures FlagsOf(a, b, 1).zero <==> a == b
  {
    WrapShift(a - b, Signed(a) - Signed(b));
  }

  /** What Zero, N and, after an addition, V say of the result. */
  lemma FlagsMean(a: Word, b: Word, control: U4)
    ensures FlagsOf(a, b, control).zero <==> Result(a, b, control) == 0
    ensures FlagsOf(a, b, control).n <==> Signed(Result(a, b, control)) < 0
    ensures control == 0 ==> (FlagsOf(a, b, control).v <==> !(-TWO_31 <= Signed(a) + Signed(b) < TWO_31))
  {
  }

  /** Numbers that differ by a multiple of 2^32 truncate alike. */
  lemma WrapShift(x: int, y: int)
    requires x - y == -TWO_32 || x - y == 0 || x - y == TWO_32 || x - y == 2 * TWO_32
    ensures x % TWO_32 == Wrap(y)
  {
    var q := (x - y) / TWO_32;
    assert x == TWO_32 * (q + y / TWO_32) + y % TWO_32;
    QuotientUnique(x, TWO_32, q + y / TWO_32, y % TWO_32);
  }

  /** SLT compares as signed numbers, SLTU as unsigned ones. */
  lemma SetLess(a: Word, b: Word)
    ensures Result(a, b, 3) == Flag(Signed(a) < Signed(b))
    ensures Result(a, b, 4) == Flag(a < b)
  {
  }

  /** SLL, SRL and SRA by the low five bits of b. */
  lemma Shifts(a: Word, b: Word)
    ensures Result(a, b, 2) == Wrap(a * Pow2(b % 32))
    ensures Result(a, b, 6) == a / Pow2(b % 32)
    ensures Result(a, b, 7) == Wrap(Signed(a) / Pow2(b % 32))
  {
    ShiftLeftMultiplies(a, b % 32);
    ShiftRightDivides(a, b % 32);
    ArithmeticShiftFloors(a, b % 32);
  }

  /** The mask-and-OR of alu.sv computes floor(signed(a) / 2^n) for n < 32. */
  lemma ArithmeticShiftFloors(a: Word, n: nat)
    requires n < 32
    ensures ShiftRightArithmetic(a, n) == Wrap(Signed(a) / Pow2(n))
  {
    if Negative(a) {
      NegativeShift(a, n);
    } else {
      PositiveShift(a, n, Pow2(n));
    }
  }

  lemma PositiveShift(a: Word, n: nat, p: nat)
    requires !Negative(a) && p == Pow2(n)
    ensures ShiftRightArithmetic(a, n) == Wrap(Signed(a) / p)
  {
    ShiftRightDivides(a, n);
    QuotientBounded(a, p);
    WrapSmall(a / p);
  }

  lemma NegativeShift(a: Word, n: nat)
    requires n < 32 && Negative(a)
    ensures ShiftRightArithmetic(a, n) == Wrap(Signed(a) / Pow2(n))
  {
    hide ShiftRight, ShiftRightArithmetic, Negative, Signed, Wrap;
    assert Pow2(n) * Pow2(32 - n) == TWO_32 by {
      Pow2Of32();
      Pow2Add(n, 32 - n);
    }
    NegativeShiftBy(a, n, Pow2(n), Pow2(32 - n));
  }

  lemma NegativeShiftBy(a: Word, n: nat, p: nat, s: nat)
    requires n < 32 && Negative(a) && p == Pow2(n) && s == Pow2(32 - n) && p * s == TWO_32
    ensures ShiftRightArithmetic(a, n) == Wrap(Signed(a) / p)
  {
    hide ShiftRight, ShiftRightArithmetic, Negative, Signed, Wrap, Pow2;
    ShiftRightDivides(a, n);
    ShiftRightDivides(TWO_32 - 1, n);
    FloorOfNegative(a, p, s);
    FillByOr(a, n, p, s, a / p);
    WrapNegative(a / p - s);
  }

  lemma WrapNegative(x: int)
    requires -TWO_32 <= x < 0
    ensures Wrap(x) == TWO_32 + x
  {
  }

  lemma FillByOr(a: Word, n: nat, p: nat, s: nat, q: nat)
    requires n < 32 && p == Pow2(n) && s == Pow2(32 - n)
    requires Negative(a) && ShiftRight(a, n) == q < s && ShiftRight(TWO_32 - 1, n) == s - 1
    requires (p - 1) * s == TWO_32 - s < TWO_32
    ensures ShiftRightArithmetic(a, n) == TWO_32 - s + q
  {
    Pow2Of32();
    OrDisjoint(p - 1, q, 32 - n, 32);
  }

  /** The three quotients of a negative SRA, with p = 2^n and s = 2^(32-n). */
  lemma FloorOfNegative(a: Word, p: nat, s: nat)
    requires Negative(a) && p > 0 && p * s == TWO_32
    ensures (TWO_32 - 1) / p == s - 1
    ensures 0 <= a / p < s <= TWO_32
    ensures (p - 1) * s == TWO_32 - s < TWO_32
    ensures Signed(a) / p == a / p - s
  {
    var q, r := a / p, a % p;
    assert a == p * q + r;
    QuotientBounded(a, p);
    MulGrows(s, p);
    assert (p - 1) * s == p * s - s;
    assert p * (s - 1) == p * s - p;
    QuotientUnique(TWO_32 - 1, p, s - 1, p - 1);
    if q >= s {
      MulMonotone(p, s, q);
      assert false;
    }
    assert p * (q - s) == p * q - p * s;
    QuotientUnique(Signed(a), p, q - s, r);
  }

  lemma QuotientBounded(a: nat, p: nat)
    requires p > 0
    ensures 0 <= a / p <= a
  {
    var q := a / p;
    assert a == p * q + a % p;
    MulGrows(q, p);
  }

  /** OR-ing a multiple of 2^n with a number below 2^n is adding them. */
  lemma {:induction false} OrDisjoint(hi: nat, lo: nat, n: nat, width: nat)
    requires n <= width && lo < Pow2(n) && hi * Pow2(n) < Pow2(width)
    ensures Bitwise(Or, hi * Pow2(n), lo, width) == hi * Pow2(n) + lo
  {
    if width == 0 {
    } else if n == 0 {
      OrZero(hi, width);
    } else {
      assert hi * Pow2(n) == 2 * (hi * Pow2(n - 1));
      OrDisjoint(hi, lo / 2, n - 1, width - 1);
    }
  }

  lemma {:induction false} OrZero(x: nat, width: nat)
    requires x < Pow2(width)
    ensures Bitwise(Or, x, 0, width) == x
  {
    if width > 0 {
      OrZero(x / 2, width - 1);
    }
  }

  /** AND, OR and XOR act bit by bit. */
  lemma LogicBits(a: Word, b: Word, k: nat)
    requires k < 32
    ensures Bit(Result(a, b, 9), k) <==> Bit(a, k) && Bit(b, k)
    ensures Bit(Result(a, b, 8), k) <==> Bit(a, k) || Bit(b, k)
    ensures Bit(Result(a, b, 5), k) <==> Bit(a, k) != Bit(b, k)
  {
    hide Bit, Bitwise;
    BitwiseBit(And, a, b, 32, k);
    BitwiseBit(Or, a, b, 32, k);
    BitwiseBit(Xor, a, b, 32, k);
  }

  /** As numbers: AND and OR share out the sum of the operands, and XOR is the sum without the
      carries, which AND gives. */
  lemma LogicSums(a: Word, b: Word)
    ensures Result(a, b, 9) + Result(a, b, 8) == a + b
    ensures Result(a, b, 5) + 2 * Result(a, b, 9) == a + b
  {
    hide Bitwise;
    Pow2Of32();
    GatesAdd(a, b, 32);
  }

  /** Operation 11 passes SrcB, the unused codes give zero, and only the sum and the
      difference can carry. */
  lemma OtherOperations(a: Word, b: Word, control: U4)
    ensures control == 11 ==> Result(a, b, control) == b
    ensures control == 10 || control >= 12 ==> Result(a, b, control) == 0
    ensures control >= 2 ==> !FlagsOf(a, b, control).c
  {
  }

  // ---------------------------------------------------------- branch decisions

  predicate Taken(funct3: U3, a: Word, b: Word) {
    PCSrc(CU.OP_BRANCH, funct3, FlagsOf(a, b, 1), true)
  }

  /** BEQ, BNE, BLTU and BGEU are decided correctly for all operands; funct3 2 and 3, which are
      no branches, are never taken. */
  lemma EqualityAndUnsignedBranches(a: Word, b: Word)
    ensures !Taken(2, a, b) && !Taken(3, a, b)
    ensures Taken(0, a, b) <==> a == b
    ensures Taken(1, a, b) <==> a != b
    ensures Taken(6, a, b) <==> a < b
    ensures Taken(7, a, b) <==> a >= b
  {
  }

  /** The operand pairs on which the N/V logic is right about the signed order. */
  predicate SignedOrderDecided(a: Word, b: Word) {
    if Signed(a) >= 0 && Signed(b) >= 0 then Signed(a) >= Signed(b)
    else if Signed(a) < 0 && Signed(b) < 0 then Signed(a) <= Signed(b)
    else -TWO_31 <= Signed(a) - Signed(b) < TWO_31
  }

  /** BLT and BGE are decided correctly exactly on those pairs: V tests for the
      overflow of an addition while the ALU subtracts. */
  lemma SignedBranches(a: Word, b: Word)
    ensures (Taken(4, a, b) <==> Signed(a) < Signed(b)) <==> SignedOrderDecided(a, b)
    ensures (Taken(5, a, b) <==> Signed(a) >= Signed(b)) <==> SignedOrderDecided(a, b)
  {
  }

  /** A pair on which they are not: BLT falls through although 1 < 2. */
  lemma SignedBranchWrong()
    ensures Signed(1) < Signed(2) && !Taken(4, 1, 2) && Taken(5, 1, 2)
  {
  }
}
