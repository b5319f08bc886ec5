/** Which instruction of the pdf program is executed when, up to its first look at the
    finished histogram, and why those instructions make every load refill its line. */
module PdfPath {
  import opened Words
  import opened DataMemory
  import opened Pipeline
  import opened Sequential
  import opened Refinement
  import opened Runs
  import opened System
  import opened Isa
  import opened IsaRuns
  import opened PdfCode
  import opened PdfShape
  import opened PdfRuns
  import opened Held
  import opened Refresh
  import Cache
  import Conformance
  import Pdf

  // ------------------------------------------------------------- instruction k

  /** Instructions with one successor, the one behind. */
  predicate Plain(i: nat) {
    4 <= i < LENGTH && i != 7 && i != 8 && i != 20 && i != 21 && i != 26 && i != 27
  }

  lemma Onwards(base: Word, x: Arch, k: nat, i: nat)
    requires Placed(base) && Reached(base, Steps(base, x, k), i) && Plain(i)
    ensures Reached(base, Steps(base, x, k + 1), i + 1)
  {
    hide IsaStep, Reached, Asm;
    var j := ShapeStep(base, Steps(base, x, k), i);
  }

  /** The head of _loop1 with c bins cleared. */
  lemma {:induction false} InitHead(base: Word, x: Arch, c: nat)
    requires Placed(base) && Reached(base, x, MAIN) && c < 256
    ensures var y := Steps(base, x, 2 + 3 * c); Reached(base, y, INIT_LOOP) && y.regs[A1] == 256 - c
  {
    hide Step1, Reached, Steps;
    if c == 0 {
      StepCall(base, x, 0);
      assert Code(4) == OpImm(ADD, A1, 0, 0x100);
      StepAddImm(base, Step1(base, x), 4);
      StepsUpTo4(base, x);
      StepsUpTo4(base, Step1(base, x));
      StepsAdd(base, x, 1, 1);
    } else {
      InitHead(base, x, c - 1);
      InitPass(base, Steps(base, x, 2 + 3 * (c - 1)), 257 - c);
      StepsAdd(base, x, 2 + 3 * (c - 1), 3);
    }
  }

  /** Init is executed up to instruction 770. */
  lemma InitIndex(base: Word, x: Arch, k: nat) returns (i: nat)
    requires Placed(base) && Reached(base, x, MAIN) && k < 771
    ensures Reached(base, Steps(base, x, k), i) && (i == 0 || 4 <= i <= 8)
  {
    hide Step1, Reached, Steps;
    StepsUpTo4(base, x);
    if k == 0 {
      i := 0;
    } else if k == 1 {
      StepCall(base, x, 0);
      i := 4;
    } else if k == 770 {
      InitHead(base, x, 255);
      InitPass(base, Steps(base, x, 767), 1);
      StepsAdd(base, x, 767, 3);
      i := 8;
    } else {
      var c, r := (k - 2) / 3, (k - 2) % 3;
      assert k == 2 + 3 * c + r;
      InitHead(base, x, c);
      if r >= 1 { Onwards(base, x, 2 + 3 * c, 5); }
      if r >= 2 { Onwards(base, x, 2 + 3 * c + 1, 6); }
      i := 5 + r;
    }
  }

  /** From the call of build to the head of _loop2. */
  lemma CallIndex(base: Word, x: Arch, r: nat)
    requires Placed(base) && Reached(base, x, MAIN) && r < 4
    ensures Reached(base, Steps(base, x, 771), 1) && Reached(base, Steps(base, x, 772 + r), 9 + r)
  {
    hide Step1, Reached, Steps;
    InitRuns(base, x);
    StepCall(base, Steps(base, x, 771), 1);
    StepsUpTo4(base, Steps(base, x, 771));
    StepsAdd(base, x, 771, 1);
    if r >= 1 { Onwards(base, x, 772, 9); }
    if r >= 2 { Onwards(base, x, 773, 10); }
    if r >= 3 { Onwards(base, x, 774, 11); }
  }

  /** The head of _loop2 with n bytes counted. */
  lemma {:induction false} BuildHead(base: Word, x: Arch, stop: nat, n: nat)
    requires Placed(base) && Reached(base, x, MAIN) && Pdf.StopsAt(x.mem, stop) && n < stop
    ensures var y := Steps(base, x, 776 + 8 * n);
      AtBuildLoop(base, y, n) && Pdf.Histogram(y.mem, x.mem, n) && Pdf.AllBelow(x.mem, n)
  {
    hide Reached, Steps, Pdf.Histogram, Pdf.AllBelow, AtBuildLoop, Pdf.StopsAt;
    StopPositive(x.mem, stop);
    if n == 0 {
      FirstHead(base, x, stop);
    } else {
      BuildHead(base, x, stop, n - 1);
      BuildPass(base, Steps(base, x, 776 + 8 * (n - 1)), x.mem, n - 1);
      StepsAdd(base, x, 776 + 8 * (n - 1), 8);
      if Pdf.StopsAt(x.mem, n) {
        Pdf.StopUnique(x.mem, stop, n);
      }
    }
  }

  lemma FirstHead(base: Word, x: Arch, stop: nat)
    requires Placed(base) && Reached(base, x, MAIN) && Pdf.StopsAt(x.mem, stop)
    ensures var y := Steps(base, x, 776); AtBuildLoop(base, y, 0) && Pdf.Histogram(y.mem, x.mem, 0)
  {
    hide Reached, Steps, Pdf.StopsAt;
    InitRuns(base, x);
    BuildEnters(base, Steps(base, x, 771));
    StepsAdd(base, x, 771, 5);
  }

  lemma LoopIndex(base: Word, x: Arch, k: nat, r: nat)
    requires Placed(base) && Reached(base, Steps(base, x, k), BUILD_LOOP) && r < 8
    ensures Reached(base, Steps(base, x, k + r), BUILD_LOOP + r)
  {
    hide Reached, Steps;
    if r > 0 {
      LoopIndex(base, x, k, r - 1);
      Onwards(base, x, k + r - 1, BUILD_LOOP + r - 1);
    }
  }

  /** The addresses of the two loads of a pass. */
  lemma LoopAddresses(base: Word, x: Arch, n: nat)
    requires Placed(base) && AtBuildLoop(base, x, n) && n < Pdf.MAX_READS
    ensures Steps(base, x, 1).regs[A5] == Pdf.BASE_DATA + n
    ensures Pdf.InBins(Steps(base, x, 3).regs[A6])
  {
    hide Step1, Reached, Steps;
    StepsUpTo4(base, x);
    assert Code(13) == Op(ADD, A5, A1, A2);
    StepAdd(base, x, 13);
    var x1 := Step1(base, x);
    assert Code(14) == Load(LBU, T0, A5, 0);
    StepLoadByte(base, x1, 14);
    var x2 := Step1(base, x1);
    assert Code(15) == Op(ADD, A6, T0, A3);
    StepAdd(base, x2, 15);
  }

  /** _loop2 ends at build's return. */
  lemma LoopEnds(base: Word, x: Arch, stop: nat)
    requires Placed(base) && Reached(base, x, MAIN) && Pdf.StopsAt(x.mem, stop)
    ensures Reached(base, Steps(base, x, 776 + 8 * stop), 21)
  {
    hide Reached, Steps, Pdf.StopsAt, Pdf.Histogram, Pdf.AllBelow, AtBuildLoop;
    StopPositive(x.mem, stop);
    BuildHead(base, x, stop, stop - 1);
    BuildPass(base, Steps(base, x, 776 + 8 * (stop - 1)), x.mem, stop - 1);
    StepsAdd(base, x, 776 + 8 * (stop - 1), 8);
  }

  /** Build returns to main with the finished histogram. */
  lemma BuildReturns(base: Word, x: Arch, stop: nat)
    requires Placed(base) && Reached(base, x, MAIN) && Pdf.StopsAt(x.mem, stop)
    ensures var z := Steps(base, x, 777 + 8 * stop); Reached(base, z, DISPLAY_CALL) && Pdf.Histogram(z.mem, x.mem, stop)
  {
    hide Reached, Steps, Pdf.Histogram, Pdf.StopsAt;
    InitRuns(base, x);
    var y := Steps(base, x, 771);
    StopPositive(x.mem, stop);
    Pdf.SameData(x.mem, y.mem, stop);
    BuildRuns(base, y, stop);
    StepsAdd(base, x, 771, 6 + 8 * stop);
  }

  /** The call of display and its first two instructions. */
  lemma DisplayStarts(base: Word, x: Arch, k: nat)
    requires Placed(base) && Reached(base, Steps(base, x, k), DISPLAY_CALL)
    ensures Reached(base, Steps(base, x, k + 1), DISPLAY) && Reached(base, Steps(base, x, k + 2), DISPLAY + 1)
  {
    hide IsaStep, Reached, Asm;
    var j := ShapeStep(base, Steps(base, x, k), DISPLAY_CALL);
    Onwards(base, x, k + 1, DISPLAY);
  }

  // ------------------------------------------------------ what the stages hold

  /** Instruction i of the program as executed in state x. */
  lemma CodeDecoded(prog: Program, base: Word, x: Arch, i: nat)
    requires Loaded(prog, base) && Reached(base, x, i)
    ensures WellFormed(Code(i)) && Conformance.Decoded(Code(i), x, At(prog, x).e)
  {
    hide Encode, Image, At, Redirects;
    AsmAt(base, i);
    PcCases(base, x, i);
    WrapSmall(Pc(base, i));
    ImageEncodes(i);
    assert prog(Wrap(Pc(base, i))) == Image(i);
    Conformance.DecodedAt(prog, x, Code(i));
  }

  lemma KindFacts(c: Instr, x: Arch, e: RegE)
    requires WellFormed(c) && Conformance.Decoded(c, x, e)
    ensures e.memRead == c.Load? && e.memWrite == c.Store?
    ensures c.Op? || c.OpImm? ==> e.regWrite && e.resultSrc == 0 && e.rd == c.rd && e.rs1 == c.rs1
    ensures c.Load? ==> e.rd == c.rd && e.funct3 == LoadFunct3(c.lop)
    ensures c.Load? && c.offset >= 0 ==> Execute(e, e.rd1, e.rd2).aluResult == Wrap(x.regs[c.rs1] + c.offset)
    ensures c.OpImm? && c.op == ADD && c.imm >= 0 ==> Execute(e, e.rd1, e.rd2).aluResult == Wrap(x.regs[c.rs1] + c.imm)
  {
    hide Execute, Wrap;
    if c.Load? && c.offset >= 0 {
      Added(e, x.regs[c.rs1], c.offset);
    } else if c.OpImm? && c.op == ADD && c.imm >= 0 {
      Added(e, x.regs[c.rs1], c.imm);
    }
  }

  /** ADD of a base register and a small constant. */
  lemma Added(e: RegE, a: Word, imm: int)
    requires e.aluSrc && e.aluControl == 0 && e.rd1 == a && e.immExt == Wrap(imm) && 0 <= imm < TWO_31
    ensures Execute(e, e.rd1, e.rd2).aluResult == Wrap(a + imm)
  {
    WrapSmall(imm);
  }

  /** Instruction number n of a history, when it is instruction i of the program. */
  lemma KindAt(prog: Program, base: Word, h: History, n: nat, i: nat)
    requires IsHistory(prog, h) && Loaded(prog, base) && Reached(base, h(n).before, i)
    ensures h(n).m.memRead == Code(i).Load? && h(n).m.memWrite == Code(i).Store?
    ensures (Code(i).Op? || Code(i).OpImm?) && Code(i).rd != 0 ==>
      Computes(h(n)) && h(n).m.rd == Code(i).rd && h(n).e.rs1 == Code(i).rs1
      && h(n + 1).before.regs[Code(i).rd] == h(n).m.aluResult
    ensures Code(i).Load? && Code(i).offset >= 0 ==>
      && h(n).m.aluResult == Wrap(h(n).before.regs[Code(i).rs1] + Code(i).offset)
      && h(n).m.rd == Code(i).rd && h(n).e.memRead && h(n).m.funct3 == LoadFunct3(Code(i).lop)
    ensures Code(i).OpImm? && Code(i).op == ADD && Code(i).imm >= 0 ==>
      h(n).m.aluResult == Wrap(h(n).before.regs[Code(i).rs1] + Code(i).imm)
  {
    hide Code, Decode, Execute, Redirects, Target, LoadData, Fetch, Loaded, Reached, Conformance.Decoded;
    assert h(n) == At(prog, h(n).before) by { assert Linked(prog, h, n); }
    CodeDecoded(prog, base, h(n).before, i);
    KindFacts(Code(i), h(n).before, h(n).e);
    StageFields(prog, h, n);
    LinkedStages(prog, h, n);
    LinkedRegs(prog, h, n);
  }

  // ------------------------------------------------------------- the discipline

  /** Tags of the histogram and of the data; the small constants lie below. */
  const FLOOR: nat := 8

  /** Instruction number n of a history is instruction i of the program. */
  predicate Is(base: Word, h: History, n: nat, i: nat) {
    Reached(base, h(n).before, i)
  }

  lemma NoAccess(prog: Program, base: Word, h: History, n: nat, i: nat)
    requires IsHistory(prog, h) && Loaded(prog, base) && Is(base, h, n, i) && !Code(i).Load? && !Code(i).Store?
    ensures RefreshSpaced(h, n, FLOOR) && !h(n).m.memRead
  {
    hide Loaded, Reached, Code, IsHistory;
    KindAt(prog, base, h, n, i);
  }

  /** LBU t0, 0(a5) after ADD a5; LBU t1, 0(a6) after ADD a6. */
  lemma LoadRefreshes(prog: Program, base: Word, h: History, n: nat, i: nat)
    requires IsHistory(prog, h) && Loaded(prog, base) && n >= 1 && (i == 14 || i == 16)
    requires Is(base, h, n - 1, i - 1) && Is(base, h, n, i) && LowBefore(h, n - 1, FLOOR)
    requires 0x100 <= h(n).before.regs[Code(i).rs1] < SIZE
    ensures RefreshSpaced(h, n, FLOOR)
  {
    hide Loaded, Reached, IsHistory, LowBefore;
    KindAt(prog, base, h, n - 1, i - 1);
    KindAt(prog, base, h, n, i);
    SmallAddress(h(n).m.aluResult);
  }

  lemma SmallAddress(w: Word)
    requires w < SIZE
    ensures AddressOf(w) == w && Cache.TagOf(AddressOf(w)) == w / 32
    ensures w >= 0x100 ==> Cache.TagOf(AddressOf(w)) >= FLOOR
    ensures w < 0x100 ==> Cache.TagOf(AddressOf(w)) < FLOOR
  {
  }

  /** SB t1, 0(a6) after ADDI t1. */
  lemma StoreRefreshes(prog: Program, base: Word, h: History, n: nat)
    requires IsHistory(prog, h) && Loaded(prog, base) && n >= 1
    requires Is(base, h, n - 1, 17) && Is(base, h, n, 18) && LowBefore(h, n - 1, FLOOR)
    ensures RefreshSpaced(h, n, FLOOR)
  {
    hide Loaded, Reached, IsHistory, LowBefore;
    KindAt(prog, base, h, n - 1, 17);
    KindAt(prog, base, h, n, 18);
  }

  /** Each load of _loop2 is named by the instruction behind it, so a bubble follows. */
  lemma BubbleAfterLoad(prog: Program, base: Word, h: History, n: nat, i: nat)
    requires IsHistory(prog, h) && Loaded(prog, base) && (i == 14 || i == 16)
    requires Is(base, h, n, i) && Is(base, h, n + 1, i + 1)
    ensures LowBefore(h, n + 1, FLOOR)
  {
    hide Loaded, Reached, IsHistory;
    KindAt(prog, base, h, n, i);
    KindAt(prog, base, h, n + 1, i + 1);
  }

  lemma BubbleAfterBack(base: Word, h: History, n: nat)
    requires Placed(base) && Is(base, h, n, 20) && Is(base, h, n + 1, BUILD_LOOP)
    ensures LowBefore(h, n + 1, FLOOR)
  {
    PcCases(base, h(n).before, 20);
  }

  lemma LowConstant(prog: Program, base: Word, h: History, n: nat)
    requires IsHistory(prog, h) && Loaded(prog, base) && Is(base, h, n, 12)
    ensures LowBefore(h, n + 1, FLOOR)
  {
    hide Loaded, IsHistory;
    assert Code(12) == OpImm(ADD, A4, 0, 200);
    KindAt(prog, base, h, n, 12);
    SmallAddress(h(n).m.aluResult);
  }

  lemma BeforeIs(prog: Program, base: Word, x: Arch, k: nat)
    requires Loaded(prog, base) && Reached(base, x, MAIN)
    ensures HistoryOf(prog, x)(k).before == Steps(base, x, k)
    ensures IsHistory(prog, HistoryOf(prog, x)) && Placed(base)
  {
    hide Reached, Seq, Loaded, AllReady, IsHistory, HistoryOf;
    ReachedZero(base, x, MAIN);
    ShapeReady(prog, base, x, MAIN, k);
    SeqIsIsa(prog, Asm(base), x, k);
    HistoryBefore(prog, x, k);
    HistoryOfIsHistory(prog, x);
    LoadedPlaced(prog, base);
  }

  /** None of the first 776 instructions is a load. */
  lemma InitNoLoad(prog: Program, base: Word, x: Arch, k: nat) returns (i: nat)
    requires Loaded(prog, base) && Reached(base, x, MAIN) && k < 776
    ensures Is(base, HistoryOf(prog, x), k, i) && !Code(i).Load?
    ensures !HistoryOf(prog, x)(k).m.memRead
  {
    hide Loaded, Reached, HistoryOf, Steps, IsHistory;
    BeforeIs(prog, base, x, k);
    if k < 771 {
      i := InitIndex(base, x, k);
    } else {
      CallIndex(base, x, if k < 772 then 0 else k - 772);
      i := if k == 771 then 1 else 9 + (k - 772);
    }
    KindAt(prog, base, HistoryOf(prog, x), k, i);
  }

  lemma InitRefreshes(prog: Program, base: Word, x: Arch, k: nat)
    requires Loaded(prog, base) && Reached(base, x, MAIN) && k < 776
    ensures RefreshSpaced(HistoryOf(prog, x), k, FLOOR)
  {
    hide Loaded, Reached, HistoryOf, LowBefore;
    forall j: nat | j <= k
      ensures !HistoryOf(prog, x)(j).m.memRead
    {
      var _ := InitNoLoad(prog, base, x, j);
    }
  }

  /** Where number 776 + 8n + r is in pass n. */
  lemma PassAt(prog: Program, base: Word, x: Arch, stop: nat, n: nat, r: nat)
    requires Loaded(prog, base) && Reached(base, x, MAIN) && Pdf.StopsAt(x.mem, stop) && n < stop && r < 8
    ensures var h := HistoryOf(prog, x);
      && Is(base, h, 776 + 8 * n + r, BUILD_LOOP + r)
      && (r == 1 ==> h(776 + 8 * n + r).before.regs[A5] == Pdf.BASE_DATA + n)
      && (r == 3 ==> Pdf.InBins(h(776 + 8 * n + r).before.regs[A6]))
    ensures n < Pdf.MAX_READS
  {
    hide Loaded, Reached, HistoryOf, Steps, Pdf.StopsAt, Pdf.Histogram, Pdf.AllBelow, AtBuildLoop;
    BeforeIs(prog, base, x, 776 + 8 * n + r);
    StopPositive(x.mem, stop);
    BuildHead(base, x, stop, n);
    var y := Steps(base, x, 776 + 8 * n);
    HeadReached(base, y, n);
    LoopIndex(base, x, 776 + 8 * n, r);
    LoopAddresses(base, y, n);
    StepsAdd(base, x, 776 + 8 * n, r);
  }

  lemma HeadReached(base: Word, y: Arch, n: nat)
    requires AtBuildLoop(base, y, n)
    ensures Reached(base, y, BUILD_LOOP)
  {
  }

  /** A low address is in M before the first instruction of every pass. */
  lemma HeadLow(prog: Program, base: Word, x: Arch, stop: nat, n: nat)
    requires Loaded(prog, base) && Reached(base, x, MAIN) && Pdf.StopsAt(x.mem, stop) && n < stop
    ensures LowBefore(HistoryOf(prog, x), 776 + 8 * n, FLOOR)
  {
    hide Loaded, Reached, HistoryOf, Steps, Pdf.StopsAt, LowBefore, IsHistory;
    var h := HistoryOf(prog, x);
    BeforeIs(prog, base, x, 775);
    if n == 0 {
      CallIndex(base, x, 3);
      LowConstant(prog, base, h, 775);
    } else {
      PassAt(prog, base, x, stop, n - 1, 7);
      PassAt(prog, base, x, stop, n, 0);
      BubbleAfterBack(base, h, 776 + 8 * n - 1);
    }
  }

  lemma LoopRefreshes(prog: Program, base: Word, x: Arch, stop: nat, n: nat, r: nat)
    requires Loaded(prog, base) && Reached(base, x, MAIN) && Pdf.StopsAt(x.mem, stop) && n < stop && r < 8
    ensures RefreshSpaced(HistoryOf(prog, x), 776 + 8 * n + r, FLOOR)
  {
    hide Loaded, Reached, HistoryOf, Steps, Pdf.StopsAt, LowBefore, IsHistory, RefreshSpaced;
    var h, k := HistoryOf(prog, x), 776 + 8 * n;
    BeforeIs(prog, base, x, k + r);
    PassAt(prog, base, x, stop, n, r);
    if r == 1 {
      PassAt(prog, base, x, stop, n, 0);
      HeadLow(prog, base, x, stop, n);
      LoadRefreshes(prog, base, h, k + 1, 14);
    } else if r == 3 {
      PassAt(prog, base, x, stop, n, 1);
      PassAt(prog, base, x, stop, n, 2);
      BubbleAfterLoad(prog, base, h, k + 1, 14);
      LoadRefreshes(prog, base, h, k + 3, 16);
    } else if r == 5 {
      PassAt(prog, base, x, stop, n, 3);
      PassAt(prog, base, x, stop, n, 4);
      BubbleAfterLoad(prog, base, h, k + 3, 16);
      StoreRefreshes(prog, base, h, k + 5);
    } else {
      NoAccess(prog, base, h, k + r, BUILD_LOOP + r);
    }
  }

  lemma TailRefreshes(prog: Program, base: Word, x: Arch, stop: nat, r: nat)
    requires Loaded(prog, base) && Reached(base, x, MAIN) && Pdf.StopsAt(x.mem, stop) && r < 4
    ensures RefreshSpaced(HistoryOf(prog, x), 776 + 8 * stop + r, FLOOR)
  {
    hide Loaded, Reached, HistoryOf, Steps, Pdf.StopsAt, IsHistory, RefreshSpaced, Pdf.Histogram;
    BeforeIs(prog, base, x, 776 + 8 * stop + r);
    LoopEnds(base, x, stop);
    BuildReturns(base, x, stop);
    DisplayStarts(base, x, 777 + 8 * stop);
    NoAccess(prog, base, HistoryOf(prog, x), 776 + 8 * stop + r,
             if r == 0 then 21 else if r == 1 then DISPLAY_CALL else if r == 2 then DISPLAY else DISPLAY + 1);
  }

  /** Up to the first load of display, every execution of the program refreshes. */
  lemma PdfRefreshes(prog: Program, base: Word, x: Arch, stop: nat)
    requires Loaded(prog, base) && Reached(base, x, MAIN) && Pdf.StopsAt(x.mem, stop)
    ensures WellRefreshed(prog, x, 780 + 8 * stop, FLOOR)
  {
    hide Loaded, Reached, HistoryOf, Pdf.StopsAt, RefreshSpaced;
    forall k: nat | k < 780 + 8 * stop
      ensures RefreshSpaced(HistoryOf(prog, x), k, FLOOR)
    {
      if k < 776 {
        InitRefreshes(prog, base, x, k);
      } else if k < 776 + 8 * stop {
        var n, r := (k - 776) / 8, (k - 776) % 8;
        assert k == 776 + 8 * n + r;
        LoopRefreshes(prog, base, x, stop, n, r);
      } else {
        TailRefreshes(prog, base, x, stop, k - (776 + 8 * stop));
      }
    }
  }

  // --------------------------------------------------------- on the real machine

  /** The sequential machine has the finished histogram in memory once build has returned. */
  lemma SeqComputes(prog: Program, base: Word, x: Arch, stop: nat, k: nat)
    requires Loaded(prog, base) && Reached(base, x, MAIN) && Pdf.StopsAt(x.mem, stop) && k >= 777 + 8 * stop
    ensures Pdf.Histogram(Seq(prog, x, k).mem, x.mem, stop)
  {
    hide Loaded, Reached, Pdf.StopsAt, Pdf.Histogram, Seq, Steps, HistoryOf, IsHistory;
    BeforeIs(prog, base, x, k);
    HistoryBefore(prog, x, k);
    StepsAreRuns(base, x, k);
    PdfComputes(base, x, stop, k);
  }

  /** The complete machine, switched on with the image of pdf.s and any data, builds the
      histogram of that data: build returns within 10 + 6 * (777 + 8 * stop) cycles, nothing
      assumed of the cache, and memory then holds the finished histogram. */
  lemma PdfOnSystem(prog: Program, base: Word, image: Memory, stop: nat) returns (n: nat)
    requires Loaded(prog, base) && Pdf.StopsAt(image, stop)
    ensures n <= 10 + 6 * (777 + 8 * stop)
    ensures Committed(TagsAfter(prog, PowerOn(base, image), n)) == 777 + 8 * stop
    ensures Pdf.Histogram(After(prog, PowerOn(base, image), n).s.mem, image, stop)
  {
    hide Loaded, Reached, Pdf.StopsAt, After, TagsAfter, Pdf.Histogram, WellRefreshed, WellSpaced, PowerOn, SwitchedOn,
         Committed;
    var y := PowerOn(base, image);
    var x := ArchOf(y.s);
    PdfStart(base, image);
    PdfWellSpaced(prog, base, x, MAIN);
    PdfRefreshes(prog, base, x, stop);
    n := RefreshReaches(prog, y, 780 + 8 * stop, FLOOR, 777 + 8 * stop);
    HistogramStands(prog, base, image, stop, n);
  }

  lemma PdfStart(base: Word, image: Memory)
    ensures var y := PowerOn(base, image); SwitchedOn(y) && Reached(base, ArchOf(y.s), MAIN) && y.s.mem == image
  {
    hide Quiet;
    PowerOnFacts(base, image);
    Cache.ColdInvalid();
  }

  /** It does in every cycle in which build has returned and display has not begun to load, and
      every cycle so far has been correct. */
  lemma HistogramStands(prog: Program, base: Word, image: Memory, stop: nat, n: nat)
    requires Loaded(prog, base) && Pdf.StopsAt(image, stop)
    requires 777 + 8 * stop <= Committed(TagsAfter(prog, PowerOn(base, image), n)) < 780 + 8 * stop
    ensures Pdf.Histogram(After(prog, PowerOn(base, image), n).s.mem, image, stop)
    ensures Correct(prog, PowerOn(base, image), n)
  {
    hide Loaded, Reached, Pdf.StopsAt, After, TagsAfter, Pdf.Histogram, WellRefreshed, WellSpaced, PowerOn, SwitchedOn,
         Committed, Seq, Steps, Correct, HistoryOf;
    var y := PowerOn(base, image);
    var x := ArchOf(y.s);
    PdfStart(base, image);
    PdfWellSpaced(prog, base, x, MAIN);
    PdfRefreshes(prog, base, x, stop);
    RefreshRefines(prog, y, 780 + 8 * stop, FLOOR, n);
    SeqComputes(prog, base, x, stop, Committed(TagsAfter(prog, y, n)));
  }
}
