/** The pdf program executed: the machine code computes the histogram of pdf.s. */
module PdfRuns {
  import opened Words
  import opened DataMemory
  import opened Sequential
  import opened Isa
  import opened IsaRuns
  import opened PdfCode
  import opened PdfShape
  import opened Pdf

  // ------------------------------------------------------- single instructions

  /** One step of the program placed at base. */
  function Step1(base: Word, x: Arch): Arch {
    IsaStep(Asm(base), x)
  }

  lemma AddSmall(x: Word, y: Word)
    requires x + y < TWO_31
    ensures Wrap(Signed(x) + Signed(y)) == x + y
  {
  }

  lemma AddSigned(x: Word, imm: int)
    requires Signed12(imm) && 0 <= x + imm && x < TWO_31 - 0x1000
    ensures Wrap(Signed(x) + Signed(Wrap(imm))) == x + imm
  {
    if imm < 0 {
      QuotientUnique(imm, TWO_32, -1, imm + TWO_32);
    }
  }

  lemma StepAddImm(base: Word, x: Arch, i: nat)
    requires Placed(base) && Reached(base, x, i) && Code(i).OpImm?
    requires 0 <= X(x, Code(i).rs1) + Code(i).imm && X(x, Code(i).rs1) < TWO_31 - 0x1000
    ensures Step1(base, x) == x.(pc := Pc(base, i + 1), regs := x.regs[Code(i).rd := X(x, Code(i).rs1) + Code(i).imm])
    ensures Reached(base, Step1(base, x), i + 1)
  {
    hide Asm, Wrap, Signed;
    StepIsExec(base, x, i);
    PcCases(base, x, i);
    AddSigned(X(x, Code(i).rs1), Code(i).imm);
  }

  lemma StepAdd(base: Word, x: Arch, i: nat)
    requires Placed(base) && Reached(base, x, i) && Code(i).Op?
    requires X(x, Code(i).rs1) + X(x, Code(i).rs2) < TWO_31
    ensures Step1(base, x) == x.(pc := Pc(base, i + 1), regs := x.regs[Code(i).rd := X(x, Code(i).rs1) + X(x,
      Code(i).rs2)])
    ensures Reached(base, Step1(base, x), i + 1)
  {
    hide Asm, Wrap, Signed;
    StepIsExec(base, x, i);
    PcCases(base, x, i);
    AddSmall(X(x, Code(i).rs1), X(x, Code(i).rs2));
  }

  lemma StepLui(base: Word, x: Arch)
    requires Placed(base) && Reached(base, x, BUILD)
    ensures Step1(base, x) == x.(pc := Pc(base, BUILD + 1), regs := x.regs[A1 := BASE_DATA])
    ensures Reached(base, Step1(base, x), BUILD + 1)
  {
    hide Asm;
    StepIsExec(base, x, BUILD);
    PcCases(base, x, BUILD);
  }

  lemma StepLoadByte(base: Word, x: Arch, i: nat)
    requires Placed(base) && Reached(base, x, i) && Code(i).Load?
    requires X(x, Code(i).rs1) + Code(i).offset < SIZE
    ensures Step1(base, x) ==
      x.(pc := Pc(base, i + 1), regs := x.regs[Code(i).rd := x.mem[X(x, Code(i).rs1) + Code(i).offset]])
    ensures Reached(base, Step1(base, x), i + 1)
  {
    hide Asm, Wrap;
    StepIsExec(base, x, i);
    PcCases(base, x, i);
    var a := X(x, Code(i).rs1) + Code(i).offset;
    QuotientUnique(a, SIZE, 0, a);
    assert LoadSize(LBU) == 1;
    LittleEndianUpTo4(x.mem, a);
    WrapSmall(x.mem[a]);
  }

  lemma StepStoreByte(base: Word, x: Arch, i: nat)
    requires Placed(base) && Reached(base, x, i) && Code(i).Store?
    requires X(x, Code(i).rs1) + Code(i).offset < SIZE
    ensures Step1(base, x) ==
      x.(pc := Pc(base, i + 1), mem := x.mem[X(x, Code(i).rs1) + Code(i).offset := X(x, Code(i).rs2) % 0x100])
    ensures Reached(base, Step1(base, x), i + 1)
  {
    hide Asm, Wrap;
    StepIsExec(base, x, i);
    PcCases(base, x, i);
    var a, v := X(x, Code(i).rs1) + Code(i).offset, X(x, Code(i).rs2);
    QuotientUnique(a, SIZE, 0, a);
    assert SizeOf(SB) == 1;
    assert PutBytes(x.mem, a, v, 1) == PutBytes(x.mem[a := v % 0x100], a + 1, v / 0x100, 0);
  }

  /** The target of each branch. */
  function TakenIndex(i: nat): nat {
    if i == 7 then INIT_LOOP else if i == 20 then BUILD_LOOP else 24
  }

  lemma StepBranch(base: Word, x: Arch, i: nat)
    requires Placed(base) && Reached(base, x, i) && Code(i).Branch?
    ensures var j := if X(x, Code(i).rs1) != X(x, Code(i).rs2) then TakenIndex(i) else i + 1;
      Step1(base, x) == x.(pc := Pc(base, j)) && Reached(base, Step1(base, x), j)
  {
    hide Asm, Wrap;
    StepIsExec(base, x, i);
    PcCases(base, x, i);
  }

  lemma StepReturn(base: Word, x: Arch, i: nat, j: nat)
    requires Placed(base) && Reached(base, x, i) && Code(i).Jalr? && 1 <= j <= 3 && x.regs[RA] == Pc(base, j)
    ensures Step1(base, x) == x.(pc := Pc(base, j)) && Reached(base, Step1(base, x), j)
  {
    hide Asm, Wrap;
    StepIsExec(base, x, i);
    PcCases(base, x, i);
  }

  lemma StepCall(base: Word, x: Arch, i: nat)
    requires Placed(base) && Reached(base, x, i) && i <= 1
    ensures var j := if i == 0 then INIT else BUILD;
      Step1(base, x) == x.(pc := Pc(base, j), regs := x.regs[RA := Pc(base, i + 1)]) && Reached(base, Step1(base, x), j)
  {
    hide Asm, Wrap, Exec;
    StepIsExec(base, x, i);
    PcCases(base, x, i);
    Called(Code(i), x);
  }

  lemma Called(c: Instr, x: Arch)
    requires c.Jal? && c.rd == RA
    ensures Exec(c, x) == x.(pc := Wrap(x.pc + c.offset), regs := x.regs[RA := Wrap(x.pc + 4)])
  {
  }

  // -------------------------------------------------------------------- loops

  function Steps(base: Word, x: Arch, n: nat): Arch {
    IsaRun(Asm(base), x, n)
  }

  lemma StepsAdd(base: Word, x: Arch, m: nat, n: nat)
    ensures Steps(base, Steps(base, x, m), n) == Steps(base, x, m + n)
  {
    RunAdd(Asm(base), x, m, n);
  }

  lemma StepsUpTo4(base: Word, x: Arch)
    ensures Steps(base, x, 0) == x
    ensures Steps(base, x, 1) == Step1(base, x)
    ensures Steps(base, x, 3) == Step1(base, Step1(base, Step1(base, x)))
    ensures Steps(base, x, 4) == Step1(base, Step1(base, Step1(base, Step1(base, x))))
  {
    hide IsaStep, Asm;
    assert Steps(base, x, 1) == Step1(base, Steps(base, x, 0));
    assert Steps(base, x, 2) == Step1(base, Steps(base, x, 1));
    assert Steps(base, x, 3) == Step1(base, Steps(base, x, 2));
  }

  /** One pass through _loop1 clears the highest bin not yet cleared. */
  lemma InitPass(base: Word, x: Arch, c: nat)
    requires Placed(base) && Reached(base, x, INIT_LOOP) && x.regs[A1] == c && 1 <= c <= 0x100
    ensures var y := Steps(base, x, 3);
      && Reached(base, y, if c == 1 then 8 else INIT_LOOP)
      && y.regs[A1] == c - 1 && y.regs[RA] == x.regs[RA] && y.mem == x.mem[BASE_PDF + c - 1 := 0]
  {
    hide Step1, Reached, Steps;
    StepsUpTo4(base, x);
    assert Code(5) == OpImm(ADD, A1, A1, -1);
    StepAddImm(base, x, 5);
    var x1 := Step1(base, x);
    assert Code(6) == Store(SB, A1, 0, 0x100);
    StepStoreByte(base, x1, 6);
    var x2 := Step1(base, x1);
    assert Code(7) == Branch(BNE, A1, 0, -8);
    StepBranch(base, x2, 7);
  }

  lemma {:induction false} InitLoop(base: Word, x: Arch, c: nat)
    requires Placed(base) && Reached(base, x, INIT_LOOP) && x.regs[A1] == c && 1 <= c <= 0x100
    ensures var y := Steps(base, x, 3 * c);
      && Reached(base, y, 8) && y.regs[RA] == x.regs[RA]
      && (forall i: nat :: i < SIZE ==> y.mem[i] == if BASE_PDF <= i < BASE_PDF + c then 0 else x.mem[i])
    decreases c
  {
    hide Reached, Steps;
    InitPass(base, x, c);
    if c > 1 {
      InitLoop(base, Steps(base, x, 3), c - 1);
      StepsAdd(base, x, 3, 3 * (c - 1));
    }
  }

  /** From reset, init returns to main after 771 instructions with the bins empty. */
  lemma InitRuns(base: Word, x: Arch)
    requires Placed(base) && Reached(base, x, MAIN)
    ensures var y := Steps(base, x, 771);
      && Reached(base, y, 1) && EmptyBins(y.mem)
      && (forall i: nat :: i < SIZE && !InBins(i) ==> y.mem[i] == x.mem[i])
  {
    hide Step1, Reached, Steps;
    StepCall(base, x, 0);
    var x1 := Step1(base, x);
    assert Code(4) == OpImm(ADD, A1, 0, 0x100);
    StepAddImm(base, x1, 4);
    var x2 := Step1(base, x1);
    InitLoop(base, x2, 0x100);
    var x3 := Steps(base, x2, 768);
    assert Code(8) == Jalr(0, RA, 0);
    StepReturn(base, x3, 8, 1);
    StepsUpTo4(base, x);
    StepsUpTo4(base, x1);
    StepsUpTo4(base, x3);
    StepsAdd(base, x, 1, 1);
    StepsAdd(base, x, 2, 768);
    StepsAdd(base, x, 770, 1);
  }

  /** The registers at the head of _loop2 when n bytes have been counted. */
  predicate AtBuildLoop(base: Word, x: Arch, n: nat) {
    && Reached(base, x, BUILD_LOOP)
    && x.regs[A1] == BASE_DATA && x.regs[A2] == n && x.regs[A3] == BASE_PDF && x.regs[A4] == MAX_COUNT
  }

  /** The first half of _loop2 reads the next data byte and its bin. */
  lemma BuildReads(base: Word, x: Arch, n: nat)
    requires Placed(base) && AtBuildLoop(base, x, n) && n < MAX_READS
    ensures var y := Steps(base, x, 4);
      && var v := x.mem[BASE_DATA + n];
      && Reached(base, y, 17) && y.mem == x.mem
      && y.regs[T1] == x.mem[BASE_PDF + v] && y.regs[A6] == BASE_PDF + v
      && y.regs[A1] == BASE_DATA && y.regs[A2] == n && y.regs[A3] == BASE_PDF && y.regs[A4] == MAX_COUNT
      && y.regs[RA] == x.regs[RA]
  {
    hide Step1, Reached, Steps;
    StepsUpTo4(base, x);
    assert Code(13) == Op(ADD, A5, A1, A2);
    StepAdd(base, x, 13);
    var x1 := Step1(base, x);
    assert Code(14) == Load(LBU, T0, A5, 0);
    StepLoadByte(base, x1, 14);
    var x2 := Step1(base, x1);
    assert Code(15) == Op(ADD, A6, T0, A3);
    StepAdd(base, x2, 15);
    var x3 := Step1(base, x2);
    assert Code(16) == Load(LBU, T1, A6, 0);
    StepLoadByte(base, x3, 16);
  }

  /** The second half writes the bin back, one higher, and decides whether to go on. */
  lemma BuildWrites(base: Word, x: Arch, n: nat, a: nat, t: nat)
    requires Placed(base) && Reached(base, x, 17) && n < MAX_READS && InBins(a) && t < MAX_COUNT
    requires x.regs[T1] == t && x.regs[A6] == a
    requires x.regs[A1] == BASE_DATA && x.regs[A2] == n && x.regs[A3] == BASE_PDF && x.regs[A4] == MAX_COUNT
    ensures var y := Steps(base, x, 4);
      && y.mem == x.mem[a := t + 1] && y.regs[RA] == x.regs[RA]
      && if t + 1 == MAX_COUNT then Reached(base, y, 21) else AtBuildLoop(base, y, n + 1)
  {
    hide Step1, Reached, Steps;
    StepsUpTo4(base, x);
    assert Code(17) == OpImm(ADD, T1, T1, 1);
    StepAddImm(base, x, 17);
    var x1 := Step1(base, x);
    assert Code(18) == Store(SB, A6, T1, 0);
    StepStoreByte(base, x1, 18);
    var x2 := Step1(base, x1);
    assert Code(19) == OpImm(ADD, A2, A2, 1);
    StepAddImm(base, x2, 19);
    var x3 := Step1(base, x2);
    assert Code(20) == Branch(BNE, T1, A4, -28);
    StepBranch(base, x3, 20);
  }

  /** One pass through _loop2 extends the histogram by one byte. */
  lemma BuildPass(base: Word, x: Arch, m: Memory, n: nat)
    requires Placed(base) && AtBuildLoop(base, x, n) && n < MAX_READS
    requires Histogram(x.mem, m, n) && AllBelow(m, n)
    ensures var y := Steps(base, x, 8);
      && Histogram(y.mem, m, n + 1) && y.regs[RA] == x.regs[RA]
      && if StopsAt(m, n + 1) then Reached(base, y, 21) else AtBuildLoop(base, y, n + 1) && AllBelow(m, n + 1)
  {
    hide Reached, Steps, Histogram, AllBelow;
    BinIncremented(m, n, x.mem);
    BuildReads(base, x, n);
    var y := Steps(base, x, 4);
    BuildWrites(base, y, n, y.regs[A6], y.regs[T1]);
    StepsAdd(base, x, 4, 4);
    if AllBelow(m, n + 1) && StopsAt(m, n + 1) {
      NotBoth(m, n + 1);
    }
  }

  lemma NotBoth(m: Memory, n: nat)
    requires StopsAt(m, n)
    ensures !AllBelow(m, n)
  {
  }

  /** _loop2 runs until the histogram stops, wherever that is. */
  lemma {:induction false} BuildLoop(base: Word, x: Arch, m: Memory, n: nat, stop: nat)
    requires Placed(base) && AtBuildLoop(base, x, n) && n < stop && StopsAt(m, stop)
    requires Histogram(x.mem, m, n) && AllBelow(m, n)
    ensures var y := Steps(base, x, 8 * (stop - n));
      Reached(base, y, 21) && Histogram(y.mem, m, stop) && y.regs[RA] == x.regs[RA]
    decreases stop - n
  {
    hide Steps, Histogram, AtBuildLoop, AllBelow, StopsAt, Reached;
    StopPositive(m, stop);
    BuildPass(base, x, m, n);
    if StopsAt(m, n + 1) {
      StopUnique(m, stop, n + 1);
    } else {
      BuildLoop(base, Steps(base, x, 8), m, n + 1, stop);
      StepsAdd(base, x, 8, 8 * (stop - n - 1));
    }
  }

  /** From its call, build comes to the head of _loop2. */
  lemma BuildEnters(base: Word, x: Arch)
    requires Placed(base) && Reached(base, x, 1)
    ensures var y := Steps(base, x, 5); AtBuildLoop(base, y, 0) && y.mem == x.mem && y.regs[RA] == Pc(base, 2)
  {
    hide Step1, Reached, Steps;
    StepCall(base, x, 1);
    var x1 := Step1(base, x);
    StepLui(base, x1);
    var x2 := Step1(base, x1);
    assert Code(10) == OpImm(ADD, A2, 0, 0);
    StepAddImm(base, x2, 10);
    var x3 := Step1(base, x2);
    assert Code(11) == OpImm(ADD, A3, 0, 0x100);
    StepAddImm(base, x3, 11);
    var x4 := Step1(base, x3);
    assert Code(12) == OpImm(ADD, A4, 0, 200);
    StepAddImm(base, x4, 12);
    StepsUpTo4(base, x);
    StepsUpTo4(base, x4);
    StepsAdd(base, x, 4, 1);
  }

  /** From an empty histogram, build returns to main with the finished one. */
  lemma BuildRuns(base: Word, x: Arch, stop: nat)
    requires Placed(base) && Reached(base, x, 1) && EmptyBins(x.mem) && StopsAt(x.mem, stop)
    ensures var y := Steps(base, x, 6 + 8 * stop);
      Reached(base, y, DISPLAY_CALL) && Histogram(y.mem, x.mem, stop)
  {
    hide Step1, Reached, Steps, StopsAt;
    BuildEnters(base, x);
    var x5 := Steps(base, x, 5);
    StopPositive(x.mem, stop);
    BuildLoop(base, x5, x.mem, 0, stop);
    var x6 := Steps(base, x5, 8 * stop);
    assert Code(21) == Jalr(0, RA, 0);
    StepReturn(base, x6, 21, 2);
    StepsUpTo4(base, x6);
    StepsAdd(base, x, 5, 8 * stop);
    StepsAdd(base, x, 5 + 8 * stop, 1);
  }

  lemma StopPositive(m: Memory, stop: nat)
    requires StopsAt(m, stop)
    ensures 0 < stop <= MAX_READS && AllBelow(m, 0)
  {
  }

  // --------------------------------------------------------------- the program

  /** The endless display loop of main, seen from its own instructions. */
  predicate Displaying(base: Word, x: Arch, i: nat) {
    Reached(base, x, i) && (i == 2 || i == 3 || (i >= DISPLAY && x.regs[RA] == Pc(base, 3)))
  }

  /** Once displaying, the program keeps displaying and never writes memory. */
  lemma DisplayStep(base: Word, x: Arch, i: nat) returns (j: nat)
    requires Placed(base) && Displaying(base, x, i)
    ensures Displaying(base, Step1(base, x), j) && Step1(base, x).mem == x.mem
  {
    hide Exec, Wrap, Asm, IsaStep;
    j := ShapeStep(base, x, i);
    StepIsExec(base, x, i);
    ExecShape(Code(i), x);
    PcCases(base, x, i);
  }

  lemma {:induction false} DisplayForever(base: Word, x: Arch, i: nat, n: nat) returns (j: nat)
    requires Placed(base) && Displaying(base, x, i)
    ensures Displaying(base, Steps(base, x, n), j) && Steps(base, x, n).mem == x.mem
  {
    hide Displaying, Asm, IsaStep;
    j := i;
    if n > 0 {
      j := DisplayForever(base, x, i, n - 1);
      j := DisplayStep(base, Steps(base, x, n - 1), j);
    }
  }

  /** From reset, and for any data, the program has the finished histogram in memory
      from instruction 777 + 8 * stop on, for ever, and has changed nothing else. */
  lemma PdfComputes(base: Word, x: Arch, stop: nat, n: nat)
    requires Placed(base) && Reached(base, x, MAIN) && StopsAt(x.mem, stop)
    requires n >= 777 + 8 * stop
    ensures Histogram(IsaRun(Asm(base), x, n).mem, x.mem, stop)
  {
    hide Reached, Steps, Histogram, StopsAt;
    InitRuns(base, x);
    var y := Steps(base, x, 771);
    StopPositive(x.mem, stop);
    SameData(x.mem, y.mem, stop);
    BuildRuns(base, y, stop);
    var z := Steps(base, y, 6 + 8 * stop);
    StepsAdd(base, x, 771, 6 + 8 * stop);
    var rest := n - (777 + 8 * stop);
    assert Displaying(base, z, DISPLAY_CALL);
    var _ := DisplayForever(base, z, DISPLAY_CALL, rest);
    StepsAdd(base, x, 777 + 8 * stop, rest);
    StepsAreRuns(base, x, n);
  }

  lemma StepsAreRuns(base: Word, x: Arch, n: nat)
    ensures Steps(base, x, n) == IsaRun(Asm(base), x, n)
  {
  }
}
