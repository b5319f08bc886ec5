/** The display loop of the pdf program, pass after pass, as the sequential machine executes
    it; and why no instruction of the program depends on register a0. */
module PdfLoop {
  import opened Words
  import opened DataMemory
  import opened Pipeline
  import opened Sequential
  import opened Refinement
  import opened Runs
  import opened Isa
  import opened IsaRuns
  import opened PdfCode
  import opened PdfShape
  import opened PdfRuns
  import opened PdfPath
  import opened Held
  import opened Unread
  import opened Passing
  import Pdf
  import CU = ControlUnit

  /** The load of bin j in pass p over the bins, counted from the first instruction. */
  function LoadNumber(stop: nat, p: nat, j: nat): nat {
    780 + 8 * stop + 770 * p + 3 * j
  }

  // ---------------------------------------------------------------- one pass

  /** The head of _loop3 for bin j. */
  predicate AtDisplayLoop(base: Word, x: Arch, j: nat) {
    Reached(base, x, 24) && x.regs[A1] == j && x.regs[A2] == 255
  }

  lemma DisplayPass(base: Word, x: Arch, j: nat)
    requires Placed(base) && AtDisplayLoop(base, x, j) && j < 255
    ensures Reached(base, Steps(base, x, 1), 25) && Reached(base, Steps(base, x, 2), 26)
    ensures j < 254 ==> AtDisplayLoop(base, Steps(base, x, 3), j + 1)
    ensures j == 254 ==> Reached(base, Steps(base, x, 3), 27)
  {
    hide Step1, Reached, Steps;
    StepsUpTo4(base, x);
    StepsAdd(base, x, 1, 1);
    StepsUpTo4(base, Steps(base, x, 1));
    assert Code(24) == Load(LBU, A0, A1, 0x100);
    StepLoadByte(base, x, 24);
    var x1 := Step1(base, x);
    assert Code(25) == OpImm(ADD, A1, A1, 1);
    StepAddImm(base, x1, 25);
    var x2 := Step1(base, x1);
    assert Code(26) == Branch(BNE, A1, A2, -8);
    StepBranch(base, x2, 26);
  }

  /** From the call of display to the first load of a pass. */
  lemma DisplayBegins(base: Word, x: Arch, k: nat)
    requires Placed(base) && Reached(base, Steps(base, x, k), DISPLAY_CALL)
    ensures Reached(base, Steps(base, x, k + 1), 22) && Reached(base, Steps(base, x, k + 2), 23)
    ensures AtDisplayLoop(base, Steps(base, x, k + 3), 0)
  {
    hide Step1, Reached, Steps;
    DisplayStarts(base, x, k);
    var x2 := Steps(base, x, k + 1);
    assert Code(22) == OpImm(ADD, A1, 0, 0);
    StepAddImm(base, x2, 22);
    assert Code(23) == OpImm(ADD, A2, 0, 255);
    StepAddImm(base, Step1(base, x2), 23);
    StepsUpTo4(base, x2);
    StepsUpTo4(base, Step1(base, x2));
    StepsAdd(base, x, k + 1, 1);
    StepsAdd(base, x, k + 2, 1);
  }

  /** Where in the endless loop the execution is, from the call of display on. */
  lemma DisplayingAt(base: Word, x: Arch, stop: nat, k: nat) returns (i: nat)
    requires Placed(base) && Reached(base, x, MAIN) && Pdf.StopsAt(x.mem, stop) && k >= 777 + 8 * stop
    ensures Displaying(base, Steps(base, x, k), i)
  {
    hide Reached, Steps, Pdf.StopsAt, Pdf.Histogram;
    BuildReturns(base, x, stop);
    i := DisplayForever(base, Steps(base, x, 777 + 8 * stop), DISPLAY_CALL, k - (777 + 8 * stop));
    StepsAdd(base, x, 777 + 8 * stop, k - (777 + 8 * stop));
  }

  lemma OneIndex(base: Word, x: Arch, i: nat, j: nat)
    requires Reached(base, x, i) && Reached(base, x, j)
    ensures i == j
  {
  }

  /** Display returns to the jump that calls it again. */
  lemma Around(base: Word, x: Arch, stop: nat, k: nat)
    requires Placed(base) && Reached(base, x, MAIN) && Pdf.StopsAt(x.mem, stop) && k >= 777 + 8 * stop
    requires Reached(base, Steps(base, x, k), 27)
    ensures Reached(base, Steps(base, x, k + 1), 3) && Reached(base, Steps(base, x, k + 2), DISPLAY_CALL)
  {
    hide IsaStep, Reached, Asm, Pdf.StopsAt;
    var i := DisplayingAt(base, x, stop, k);
    OneIndex(base, Steps(base, x, k), i, 27);
    StepReturn(base, Steps(base, x, k), 27, 3);
    var j := ShapeStep(base, Steps(base, x, k + 1), 3);
  }

  lemma {:induction false} DisplayHead(base: Word, x: Arch, stop: nat, p: nat, j: nat)
    requires Placed(base) && Reached(base, x, MAIN) && Pdf.StopsAt(x.mem, stop) && j < 255
    ensures AtDisplayLoop(base, Steps(base, x, LoadNumber(stop, p, j)), j)
    decreases p, j
  {
    hide Step1, Reached, Steps, Pdf.StopsAt, Pdf.Histogram, AtDisplayLoop;
    if j > 0 {
      DisplayHead(base, x, stop, p, j - 1);
      DisplayPass(base, Steps(base, x, LoadNumber(stop, p, j - 1)), j - 1);
      StepsAdd(base, x, LoadNumber(stop, p, j - 1), 3);
    } else if p > 0 {
      DisplayHead(base, x, stop, p - 1, 254);
      PassEnds(base, x, stop, p - 1);
      DisplayBegins(base, x, LoadNumber(stop, p - 1, 254) + 5);
    } else {
      BuildReturns(base, x, stop);
      DisplayBegins(base, x, 777 + 8 * stop);
    }
  }

  /** From the last load of a pass to the next call of display. */
  lemma PassEnds(base: Word, x: Arch, stop: nat, p: nat)
    requires Placed(base) && Reached(base, x, MAIN) && Pdf.StopsAt(x.mem, stop)
    requires AtDisplayLoop(base, Steps(base, x, LoadNumber(stop, p, 254)), 254)
    ensures var d := LoadNumber(stop, p, 254);
      && Reached(base, Steps(base, x, d + 1), 25) && Reached(base, Steps(base, x, d + 2), 26)
      && Reached(base, Steps(base, x, d + 3), 27) && Reached(base, Steps(base, x, d + 4), 3)
      && Reached(base, Steps(base, x, d + 5), DISPLAY_CALL)
  {
    hide Reached, Steps, Pdf.StopsAt, AtDisplayLoop;
    var d := LoadNumber(stop, p, 254);
    DisplayPass(base, Steps(base, x, d), 254);
    StepsAdd(base, x, d, 1);
    StepsAdd(base, x, d, 2);
    StepsAdd(base, x, d, 3);
    Around(base, x, stop, d + 3);
  }

  // ---------------------------------------------------- the numbered instructions

  predicate LoadsBin(i: Insn, j: nat) {
    && i.m.memRead && i.m.rd == A0 && i.m.funct3 == 4 && AddressOf(i.m.aluResult) == 0x100 + j
  }

  /** The load of bin j, and the two instructions behind it. */
  lemma RoundAt(prog: Program, base: Word, x: Arch, stop: nat, p: nat, j: nat)
    requires Loaded(prog, base) && Reached(base, x, MAIN) && Pdf.StopsAt(x.mem, stop) && j < 255
    ensures var h, d := HistoryOf(prog, x), LoadNumber(stop, p, j);
      LoadsBin(h(d), j) && Computes(h(d + 1)) && NoAccessIn(h(d + 2)) && (j < 254 ==> !Straight(h, d + 2))
  {
    hide Loaded, Reached, HistoryOf, Steps, Pdf.StopsAt, IsHistory, Straight, LoadsBin, Computes;
    var h, d := HistoryOf(prog, x), LoadNumber(stop, p, j);
    BeforeIs(prog, base, x, d);
    BeforeIs(prog, base, x, d + 1);
    BeforeIs(prog, base, x, d + 2);
    BeforeIs(prog, base, x, d + 3);
    DisplayHead(base, x, stop, p, j);
    DisplayPass(base, Steps(base, x, d), j);
    StepsAdd(base, x, d, 1);
    StepsAdd(base, x, d, 2);
    StepsAdd(base, x, d, 3);
    BinLoaded(prog, base, h, d, j);
    StepsOn(prog, base, h, d + 1);
    BranchesBack(prog, base, h, d + 2);
  }

  lemma BinLoaded(prog: Program, base: Word, h: History, d: nat, j: nat)
    requires IsHistory(prog, h) && Loaded(prog, base) && AtDisplayLoop(base, h(d).before, j) && j < 255
    ensures LoadsBin(h(d), j)
  {
    hide IsHistory, Loaded, Reached;
    assert Code(24) == Load(LBU, A0, A1, 0x100);
    KindAt(prog, base, h, d, 24);
    SmallAddress(h(d).m.aluResult);
  }

  lemma StepsOn(prog: Program, base: Word, h: History, n: nat)
    requires IsHistory(prog, h) && Loaded(prog, base) && Reached(base, h(n).before, 25)
    ensures Computes(h(n))
  {
    hide IsHistory, Loaded, Reached;
    assert Code(25) == OpImm(ADD, A1, A1, 1);
    KindAt(prog, base, h, n, 25);
  }

  lemma BranchesBack(prog: Program, base: Word, h: History, n: nat)
    requires IsHistory(prog, h) && Loaded(prog, base) && Placed(base) && Reached(base, h(n).before, 26)
    ensures NoAccessIn(h(n))
    ensures Reached(base, h(n + 1).before, 24) ==> !Straight(h, n)
  {
    hide IsHistory, Loaded;
    assert Code(26) == Branch(BNE, A1, A2, -8);
    KindAt(prog, base, h, n, 26);
    PcCases(base, h(n).before, 26);
  }

  /** LI a1, 0 and LI a2, 255, before the first load of a pass. */
  lemma Constants(prog: Program, base: Word, x: Arch, stop: nat, p: nat)
    requires Loaded(prog, base) && Reached(base, x, MAIN) && Pdf.StopsAt(x.mem, stop)
    ensures var h, d := HistoryOf(prog, x), LoadNumber(stop, p, 0);
      && Computes(h(d - 2)) && h(d - 2).m.aluResult == 0
      && Computes(h(d - 1)) && h(d - 1).m.aluResult == 255
  {
    hide Loaded, Reached, HistoryOf, Pdf.StopsAt, Pdf.Histogram, Steps, IsHistory, Computes;
    var h, d := HistoryOf(prog, x), LoadNumber(stop, p, 0);
    BeforeIs(prog, base, x, d - 2);
    BeforeIs(prog, base, x, d - 1);
    CallBefore(base, x, stop, p);
    DisplayBegins(base, x, d - 3);
    Constant(prog, base, h, d - 2, 22);
    Constant(prog, base, h, d - 1, 23);
  }

  lemma CallBefore(base: Word, x: Arch, stop: nat, p: nat)
    requires Placed(base) && Reached(base, x, MAIN) && Pdf.StopsAt(x.mem, stop)
    ensures Reached(base, Steps(base, x, LoadNumber(stop, p, 0) - 3), DISPLAY_CALL)
  {
    hide Reached, Pdf.StopsAt, Pdf.Histogram, Steps;
    if p == 0 {
      BuildReturns(base, x, stop);
    } else {
      DisplayHead(base, x, stop, p - 1, 254);
      PassEnds(base, x, stop, p - 1);
    }
  }

  lemma Constant(prog: Program, base: Word, h: History, n: nat, i: nat)
    requires IsHistory(prog, h) && Loaded(prog, base) && Reached(base, h(n).before, i) && 22 <= i <= 23
    ensures Computes(h(n)) && h(n).m.aluResult == if i == 22 then 0 else 255
  {
    hide IsHistory, Loaded;
    assert Code(22) == OpImm(ADD, A1, 0, 0) && Code(23) == OpImm(ADD, A2, 0, 255);
    KindAt(prog, base, h, n, i);
  }

  /** Between the last load of a pass and the first of the next there is no access. */
  lemma Passage(prog: Program, base: Word, x: Arch, stop: nat, p: nat, k: nat)
    requires Loaded(prog, base) && Reached(base, x, MAIN) && Pdf.StopsAt(x.mem, stop)
    requires LoadNumber(stop, p, 254) < k < LoadNumber(stop, p + 1, 0)
    ensures NoAccessIn(HistoryOf(prog, x)(k))
  {
    hide Loaded, Reached, HistoryOf, Pdf.StopsAt, Steps, IsHistory, AtDisplayLoop, NoAccessIn;
    var d := LoadNumber(stop, p, 254);
    BeforeIs(prog, base, x, k);
    DisplayHead(base, x, stop, p, 254);
    PassEnds(base, x, stop, p);
    DisplayBegins(base, x, d + 5);
    var i := if k == d + 1 then 25 else if k == d + 2 then 26 else if k == d + 3 then 27
             else if k == d + 4 then 3 else if k == d + 5 then DISPLAY_CALL else if k == d + 6 then 22 else 23;
    NoAccessAt(prog, base, HistoryOf(prog, x), k, i);
  }

  lemma NoAccessAt(prog: Program, base: Word, h: History, k: nat, i: nat)
    requires IsHistory(prog, h) && Loaded(prog, base) && Reached(base, h(k).before, i)
    requires !Code(i).Load? && !Code(i).Store?
    ensures NoAccessIn(h(k))
  {
    hide IsHistory, Loaded, Reached, Code;
    KindAt(prog, base, h, k, i);
  }

  /** After the histogram is finished the only loads are those of the bins. */
  lemma WhichLoad(prog: Program, base: Word, x: Arch, stop: nat, k: nat) returns (p: nat, j: nat)
    requires Loaded(prog, base) && Reached(base, x, MAIN) && Pdf.StopsAt(x.mem, stop)
    requires k >= 780 + 8 * stop && HistoryOf(prog, x)(k).m.memRead
    ensures k == LoadNumber(stop, p, j) && j < 255
  {
    hide Loaded, Reached, HistoryOf, Pdf.StopsAt, Straight;
    var r := k - (780 + 8 * stop);
    p := r / 770;
    j := r % 770 / 3;
    assert r == 770 * p + r % 770;
    if r % 770 < 765 {
      RoundAt(prog, base, x, stop, p, j);
      LastInRound(r % 770);
    } else {
      Passage(prog, base, x, stop, p, k);
    }
  }

  lemma LastInRound(r: nat)
    ensures r % 3 == 0 || r == 3 * (r / 3) + 1 || r == 3 * (r / 3) + 2
  {
  }

  // ------------------------------------------------------------------ register a0

  predicate Sourceless(w: Word) {
    CU.Rs1(w) != A0 && CU.Rs2(w) != A0
  }

  lemma MainSources()
    ensures Sourceless(Image(0)) && Sourceless(Image(1)) && Sourceless(Image(2)) && Sourceless(Image(3))
    ensures Sourceless(Image(4)) && Sourceless(Image(5)) && Sourceless(Image(6))
  {
  }

  lemma BuildSources()
    ensures Sourceless(Image(7)) && Sourceless(Image(8)) && Sourceless(Image(9)) && Sourceless(Image(10))
    ensures Sourceless(Image(11)) && Sourceless(Image(12)) && Sourceless(Image(13))
  {
  }

  lemma LoopSources()
    ensures Sourceless(Image(14)) && Sourceless(Image(15)) && Sourceless(Image(16)) && Sourceless(Image(17))
    ensures Sourceless(Image(18)) && Sourceless(Image(19)) && Sourceless(Image(20))
  {
  }

  lemma DisplaySources()
    ensures Sourceless(Image(21)) && Sourceless(Image(22)) && Sourceless(Image(23)) && Sourceless(Image(24))
    ensures Sourceless(Image(25)) && Sourceless(Image(26)) && Sourceless(Image(27))
  {
  }

  /** No instruction word of the program has a0 in a source register field. */
  lemma ImageSources(i: nat)
    requires i < LENGTH
    ensures Sourceless(Image(i))
  {
    hide Sourceless, Image;
    MainSources();
    BuildSources();
    LoopSources();
    DisplaySources();
  }

  lemma PdfNeverNames(prog: Program, base: Word, x: Arch)
    requires Loaded(prog, base) && Reached(base, x, MAIN)
    ensures NeverNamed(HistoryOf(prog, x), A0)
  {
    hide Loaded, Reached, HistoryOf, Names;
    forall k: nat
      ensures !Names(HistoryOf(prog, x)(k), A0)
    {
      UnnamedFrom(prog, base, x, k);
    }
  }

  lemma UnnamedFrom(prog: Program, base: Word, x: Arch, k: nat)
    requires Loaded(prog, base) && Reached(base, x, MAIN)
    ensures !Names(HistoryOf(prog, x)(k), A0)
  {
    hide Loaded, Reached, HistoryOf, IsHistory, Names, Asm;
    BeforeIs(prog, base, x, k);
    var i := ShapeRun(base, x, MAIN, k);
    UnnamedAt(prog, base, HistoryOf(prog, x), k, i);
  }

  lemma UnnamedAt(prog: Program, base: Word, h: History, n: nat, i: nat)
    requires IsHistory(prog, h) && Loaded(prog, base) && Placed(base) && Reached(base, h(n).before, i)
    ensures !Names(h(n), A0)
  {
    hide IsHistory, Image, Decode, Execute, LoadData, Redirects, CU.Rs1, CU.Rs2;
    StageFields(prog, h, n);
    AsmAt(base, i);
    WrapSmall(Pc(base, i));
    assert prog(Wrap(Pc(base, i))) == Image(i);
    ImageSources(i);
  }

  /** Every execution of the program is well spaced and never names a0. */
  lemma PdfApart(prog: Program, base: Word, x: Arch)
    requires Loaded(prog, base) && Reached(base, x, MAIN)
    ensures Apart(prog, x, A0)
  {
    hide Loaded, Reached, WellSpaced, NeverNamed;
    PdfWellSpaced(prog, base, x, MAIN);
    PdfNeverNames(prog, base, x);
  }

  /** The pipelined machine running the image of pdf.s, whenever the cache freezes it and
      whatever it serves to a0: once it has committed enough instructions its data memory
      holds the histogram of the data it started with. */
  lemma PdfOnPipeline(prog: Program, base: Word, o: Config, cs: seq<Cached>, stop: nat)
    requires FromReset(o) && o.s.regs[0] == 0 && o.s.pc == base && Loaded(prog, base)
    requires CoherentBut(prog, o, cs, A0) && Pdf.StopsAt(o.s.mem, stop)
    requires Committed(Run(prog, o, cs).t) >= 777 + 8 * stop
    ensures Pdf.Histogram(Run(prog, o, cs).s.mem, o.s.mem, stop)
    ensures Lossless(prog, o, cs)
  {
    hide Run, Pdf.Histogram, Pdf.StopsAt, CoherentBut, Loaded, Apart, AtReset, Seq, Committed, SameBut, WriteRegister,
         Lossless;
    assert Reached(base, ArchOf(o.s), MAIN);
    PdfApart(prog, base, ArchOf(o.s));
    UnreadRefines(prog, o, A0, cs);
    UnreadLossless(prog, o, A0, cs);
    SeqComputes(prog, base, ArchOf(o.s), stop, Committed(Run(prog, o, cs).t));
  }
}
