/** What the display loop of the pdf program is shown on the complete machine, pass after
    pass: from bin 5 of the first pass on, the line that the load of bin 4 left behind. The
    rest of the machine does not suffer, because the program never names a0. */
module PdfDisplay {
  import opened Words
  import opened DataMemory
  import opened Pipeline
  import opened Sequential
  import opened Refinement
  import opened Runs
  import opened System
  import opened PdfCode
  import opened PdfShape
  import opened PdfRuns
  import opened PdfPath
  import opened PdfLoop
  import opened Held
  import opened Refresh
  import opened Unread
  import opened Passing
  import Cache
  import Pdf

  // -------------------------------------------------------- the histogram stands

  /** If M holds a load, its data are current or it is one of display's. */
  lemma TrueButA0(prog: Program, base: Word, image: Memory, stop: nat, n: nat)
    requires Loaded(prog, base) && Pdf.StopsAt(image, stop) && Spares(prog, PowerOn(base, image), A0, n)
    ensures SparesAt(prog, PowerOn(base, image), A0, n)
  {
    hide Loaded, Reached, Pdf.StopsAt, PowerOn, After, TagsAfter, SwitchedOn, HistoryOf, Invariant, Spares, Committed,
         Like, NothingLost, CorrectAt, FoundData, LoadData;
    var y := PowerOn(base, image);
    var h, t := HistoryOf(prog, ArchOf(y.s)), TagsAfter(prog, y, n);
    var z := Shadow(prog, y, A0, n);
    LikeMemory(After(prog, y, n).s, z, A0);
    if z.m.memRead {
      var k := LoadNumbered(prog, h, z, t);
      if k < 780 + 8 * stop {
        RefreshedSoFar(prog, base, image, stop, n);
      } else {
        PdfStart(base, image);
        LaterLoad(prog, base, ArchOf(y.s), stop, k);
        LoadFields(prog, h, z, t);
      }
    }
  }

  /** A load in M is the instruction that is due there. */
  lemma LoadNumbered(prog: Program, h: History, z: State, t: Tags) returns (k: nat)
    requires Invariant(prog, h, z, t) && z.m.memRead
    ensures t.m == Real(k) && Committed(t) == k && h(k).m.memRead
  {
    hide Invariant;
    IsOrderly(prog, h, z, t);
    Signals(z, t);
    k := t.m.n;
    SlotNumbers(t);
    AddressInM(prog, h, z, t);
  }

  lemma LaterLoad(prog: Program, base: Word, x: Arch, stop: nat, k: nat)
    requires Loaded(prog, base) && Reached(base, x, MAIN) && Pdf.StopsAt(x.mem, stop)
    requires k >= 780 + 8 * stop && HistoryOf(prog, x)(k).m.memRead
    ensures HistoryOf(prog, x)(k).m.rd == A0
  {
    hide Loaded, Reached, HistoryOf, Pdf.StopsAt, Straight;
    var p, j := WhichLoad(prog, base, x, stop, k);
    RoundAt(prog, base, x, stop, p, j);
  }

  /** Up to the first load of display the cache serves the memory's words. */
  lemma RefreshedSoFar(prog: Program, base: Word, image: Memory, stop: nat, n: nat)
    requires Loaded(prog, base) && Pdf.StopsAt(image, stop)
    requires Committed(TagsAfter(prog, PowerOn(base, image), n)) < 780 + 8 * stop
    ensures var z := After(prog, PowerOn(base, image), n); DataCurrent(z.s, Drives(z))
  {
    hide Loaded, Reached, Pdf.StopsAt, PowerOn, After, TagsAfter, SwitchedOn, WellSpaced, WellRefreshed, HistoryOf,
         Invariant, RefreshCache, Committed, DataCurrent;
    var y := PowerOn(base, image);
    PdfStart(base, image);
    PdfWellSpaced(prog, base, ArchOf(y.s), MAIN);
    PdfRefreshes(prog, base, ArchOf(y.s), stop);
    if n > 0 { CommittedGrows(prog, y, n - 1, n); }
    RefreshRun(prog, y, 780 + 8 * stop, FLOOR, n);
    RefreshData(prog, HistoryOf(prog, ArchOf(y.s)), After(prog, y, n), TagsAfter(prog, y, n), FLOOR);
  }

  /** The only words that the cache ever serves wrongly go to a0. */
  lemma PdfSpares(prog: Program, base: Word, image: Memory, stop: nat)
    requires Loaded(prog, base) && Pdf.StopsAt(image, stop)
    ensures AlwaysSpares(prog, PowerOn(base, image), A0)
  {
    hide Loaded, Pdf.StopsAt, PowerOn, Spares;
    forall n: nat
      ensures Spares(prog, PowerOn(base, image), A0, n)
    {
      SparesSoFar(prog, base, image, stop, n);
    }
  }

  lemma {:induction false} SparesSoFar(prog: Program, base: Word, image: Memory, stop: nat, n: nat)
    requires Loaded(prog, base) && Pdf.StopsAt(image, stop)
    ensures Spares(prog, PowerOn(base, image), A0, n)
  {
    hide Loaded, Reached, Pdf.StopsAt, PowerOn, SparesAt, Apart, AtReset, Quiet, Cache.AllInvalid;
    if n == 0 {
      PdfStart(base, image);
      PdfApart(prog, base, ArchOf(PowerOn(base, image).s));
    } else {
      SparesSoFar(prog, base, image, stop, n - 1);
      TrueButA0(prog, base, image, stop, n - 1);
    }
  }

  /** On the complete machine, from the return of build on, the histogram is in memory in
      every cycle, for ever, and no instruction is lost. */
  lemma HistogramForever(prog: Program, base: Word, image: Memory, stop: nat, n: nat)
    requires Loaded(prog, base) && Pdf.StopsAt(image, stop)
    requires Committed(TagsAfter(prog, PowerOn(base, image), n)) >= 777 + 8 * stop
    ensures Pdf.Histogram(After(prog, PowerOn(base, image), n).s.mem, image, stop)
    ensures NoneLost(prog, PowerOn(base, image), n)
  {
    hide Loaded, Reached, Pdf.StopsAt, After, TagsAfter, Pdf.Histogram, PowerOn, Committed, Seq, Spares, WriteRegister,
         NoneLost, SwitchedOn, SameBut;
    var y := PowerOn(base, image);
    PdfStart(base, image);
    PdfSpares(prog, base, image, stop);
    assert Spares(prog, y, A0, n);
    SparesRefines(prog, y, A0, n);
    SeqComputes(prog, base, ArchOf(y.s), stop, Committed(TagsAfter(prog, y, n)));
  }

  // ------------------------------------------------------------- what the cache holds

  /** The bin whose count a0 is given by the load of bin j in pass p. */
  function Shown(p: nat, j: nat): nat {
    if (p == 0 && j <= 4) || j == 0 then j else 4
  }

  predicate FirstBins(p: nat, j: nat) {
    p == 0 && j <= 4
  }

  /** What the first load of all leaves in line 7, for the load of bin 0 in every later pass. */
  predicate Bin0Kept(lines: Cache.Lines, mem: Memory) {
    lines[7].data == ReadWord(mem, 0x100)
  }

  /** Bin 4's word as if it were the word at 0, where bubbles and LI a1, 0 find it. */
  predicate Settled(lines: Cache.Lines, mem: Memory) {
    Bin0Kept(lines, mem) && lines[0] == Cache.Line(true, 0, ReadWord(mem, 0x104))
  }

  /** Line 0 is that of the bins below 4: address 0 does not hit. */
  predicate Displaced(lines: Cache.Lines, mem: Memory) {
    Bin0Kept(lines, mem) && lines[0].valid && lines[0].tag == FLOOR
  }

  /** The cache when the load of bin j in pass p enters M. */
  predicate Entering(c: Cache.CacheState, mem: Memory, p: nat, j: nat) {
    if p == 0 && j == 0 then !c.hit && c.aTag == 7 && c.aSet == 7 && HighOnly(c.lines, FLOOR)
    else if FirstBins(p, j) then !c.hit && c.aTag == 0 && c.aSet == 0 && Displaced(c.lines, mem)
    else c.hit && Settled(c.lines, mem) && c.aSet == if j == 0 then 7 else 0
  }

  /** The lines when it leaves. */
  predicate Leaving(lines: Cache.Lines, mem: Memory, p: nat, j: nat) {
    if p == 0 && j < 4 then Displaced(lines, mem) else Settled(lines, mem)
  }

  lemma EnteringMisses(c: Cache.CacheState, mem: Memory, p: nat, j: nat)
    requires Entering(c, mem, p, j) && FirstBins(p, j)
    ensures !c.hit && !Cache.Present(c)
  {
  }

  lemma BinLine(j: nat)
    requires j <= 4
    ensures Cache.TagOf(0x100 + j) == FLOOR && Cache.SetOf(0x100 + j) == if j == 4 then 1 else 0
  {
  }

  /** The refills of one of the first loads prepare what the next ones find. */
  lemma Refills(c: Cache.CacheState, x: Cache.Port, mem: Memory, p: nat, j: nat)
    requires Entering(c, mem, p, j) && FirstBins(p, j) && x.a == 0x100 + j && x.found == ReadWord(mem, x.a)
    ensures Leaving(RefilledTwice(c, x), mem, p, j)
  {
    hide ReadWord, Cache.TagOf, Cache.SetOf;
    BinLine(j);
  }

  lemma EnteringHits(c: Cache.CacheState, mem: Memory, p: nat, j: nat)
    requires Entering(c, mem, p, j) && !FirstBins(p, j) && j < 255
    ensures c.hit && Cache.Read(c) == ReadWord(mem, 0x100 + Shown(p, j)) && Leaving(c.lines, mem, p, j)
  {
    hide ReadWord;
  }

  /** After two cycles on address 0 the next load of the same pass finds this. */
  lemma EnteringNext(c: Cache.CacheState, lines: Cache.Lines, mem: Memory, p: nat, j: nat)
    requires Leaving(lines, mem, p, j) && c.lines == lines && c.aTag == 0 && c.aSet == 0
    requires c.hit == (lines[0].valid && lines[0].tag == 0)
    ensures Entering(c, mem, p, j + 1)
  {
    hide ReadWord;
  }

  /** After LI a1, 0 and LI a2, 255 the first load of a later pass finds this. */
  lemma EnteringPass(c: Cache.CacheState, lines: Cache.Lines, mem: Memory, p: nat)
    requires Leaving(lines, mem, p, 254) && c.lines == lines && c.aTag == 7 && c.aSet == 7
    requires c.hit == (lines[0].valid && lines[0].tag == 0)
    ensures Entering(c, mem, p + 1, 0)
  {
    hide ReadWord;
  }

  // ------------------------------------------------------------------ load by load

  ghost predicate AtLoad(prog: Program, y: System, stop: nat, p: nat, j: nat, n: nat) {
    && TagsAfter(prog, y, n).m == Real(LoadNumber(stop, p, j))
    && Entering(After(prog, y, n).cache, After(prog, y, n).s.mem, p, j)
  }

  /** The load of bin j leaves M in cycle n. */
  ghost predicate LeavesLoad(prog: Program, y: System, stop: nat, p: nat, j: nat, n: nat) {
    var z := After(prog, y, n);
    && TagsAfter(prog, y, n).m == Real(LoadNumber(stop, p, j)) && z.cache.hit
    && Drives(z).data == ReadWord(z.s.mem, 0x100 + Shown(p, j))
    && Leaving(z.cache.lines, z.s.mem, p, j)
  }

  /** M holds the load of bin j. */
  lemma LoadOfBin(prog: Program, base: Word, image: Memory, stop: nat, p: nat, j: nat, n: nat)
    requires Loaded(prog, base) && Pdf.StopsAt(image, stop) && j < 255
    requires TagsAfter(prog, PowerOn(base, image), n).m == Real(LoadNumber(stop, p, j))
    ensures var s := After(prog, PowerOn(base, image), n).s;
      s.m.memRead && !s.m.memWrite && AddressOf(s.m.aluResult) == 0x100 + j && s.m.funct3 == 4 && s.m.rd == A0
    ensures HistoryOf(prog, ArchOf(PowerOn(base, image).s))(LoadNumber(stop, p, j)).m.rd == A0
    ensures Committed(TagsAfter(prog, PowerOn(base, image), n)) == LoadNumber(stop, p, j)
  {
    hide Loaded, Reached, HistoryOf, Pdf.StopsAt, PowerOn, After, TagsAfter, SwitchedOn, AlwaysSpares, Orderly,
         Invariant, Straight, NothingLost, NoneLost;
    var y := PowerOn(base, image);
    PdfStart(base, image);
    PdfSpares(prog, base, image, stop);
    RoundAt(prog, base, ArchOf(y.s), stop, p, j);
    NumberInM(prog, y, A0, n, LoadNumber(stop, p, j));
    var _ := ShadowAlways(prog, y, A0, n);
    Signals(After(prog, y, n).s, TagsAfter(prog, y, n));
  }

  lemma LoadServed(prog: Program, base: Word, image: Memory, stop: nat, p: nat, j: nat, n: nat) returns (k: nat)
    requires Loaded(prog, base) && Pdf.StopsAt(image, stop) && j < 255
    requires AtLoad(prog, PowerOn(base, image), stop, p, j, n)
    ensures LeavesLoad(prog, PowerOn(base, image), stop, p, j, k)
  {
    hide Loaded, Pdf.StopsAt, PowerOn, After, TagsAfter, AlwaysSpares, Entering, Leaving, ReadWord, RefilledTwice,
         HistoryOf, Committed, Cache.Present, PortOfM;
    var y := PowerOn(base, image);
    var z := After(prog, y, n);
    PdfSpares(prog, base, image, stop);
    LoadOfBin(prog, base, image, stop, p, j, n);
    if FirstBins(p, j) {
      EnteringMisses(z.cache, z.s.mem, p, j);
      k := LoadWaits(prog, y, A0, n);
      PortOfMFields(z.s);
      Refills(z.cache, PortOfM(z.s), z.s.mem, p, j);
    } else {
      EnteringHits(z.cache, z.s.mem, p, j);
      k := n;
    }
  }

  /** From the cycle in which the load of bin j leaves M to the one in which that of the next
      bin enters: five cycles, the lines untouched, address 0 registered. */
  lemma NextBin(prog: Program, base: Word, image: Memory, stop: nat, p: nat, j: nat, n: nat)
    requires Loaded(prog, base) && Pdf.StopsAt(image, stop) && j < 254
    requires LeavesLoad(prog, PowerOn(base, image), stop, p, j, n)
    ensures AtLoad(prog, PowerOn(base, image), stop, p, j + 1, n + 5)
  {
    hide Loaded, Reached, HistoryOf, Pdf.StopsAt, PowerOn, After, TagsAfter, Quiet, AtReset, AlwaysSpares, Straight,
         Computes, Cache.Present, Cache.Holds, Leaving, Entering, ReadWord, Committed, Cache.AllInvalid;
    var y, d := PowerOn(base, image), LoadNumber(stop, p, j);
    PdfStart(base, image);
    PdfSpares(prog, base, image, stop);
    RoundAt(prog, base, ArchOf(y.s), stop, p, j);
    LoadOfBin(prog, base, image, stop, p, j, n);
    LoadLeaves(prog, y, A0, n, d);
    ComputedLeaves(prog, y, A0, n + 1, d + 1);
    NumberInM(prog, y, A0, n + 2, d + 2);
    BranchLeaves(prog, y, A0, n + 2, d + 2);
    EnteringNext(After(prog, y, n + 5).cache, After(prog, y, n).cache.lines, After(prog, y, n).s.mem, p, j);
  }

  /** The two constants leave M, and the first load of the pass enters. */
  lemma PassBegins(prog: Program, base: Word, image: Memory, stop: nat, p: nat, n: nat)
    requires Loaded(prog, base) && Pdf.StopsAt(image, stop)
    requires TagsAfter(prog, PowerOn(base, image), n).m == Real(LoadNumber(stop, p, 0) - 2)
    ensures var y := PowerOn(base, image);
      var z, x := After(prog, y, n), After(prog, y, n + 2);
      && TagsAfter(prog, y, n + 2).m == Real(LoadNumber(stop, p, 0))
      && x.s.mem == z.s.mem && x.cache.lines == z.cache.lines && x.cache.aTag == 7 && x.cache.aSet == 7
      && x.cache.hit == (z.cache.lines[0].valid && z.cache.lines[0].tag == 0)
  {
    hide Loaded, Reached, HistoryOf, Pdf.StopsAt, PowerOn, After, TagsAfter, AlwaysSpares, Computes, SwitchedOn;
    var y, d := PowerOn(base, image), LoadNumber(stop, p, 0);
    PdfStart(base, image);
    PdfSpares(prog, base, image, stop);
    Constants(prog, base, ArchOf(y.s), stop, p);
    SmallAddress(0);
    SmallAddress(255);
    ComputedLeaves(prog, y, A0, n, d - 2);
    ComputedLeaves(prog, y, A0, n + 1, d - 1);
  }

  /** From the last load of a pass to the first of the next. */
  lemma NextPass(prog: Program, base: Word, image: Memory, stop: nat, p: nat, n: nat) returns (k: nat)
    requires Loaded(prog, base) && Pdf.StopsAt(image, stop)
    requires LeavesLoad(prog, PowerOn(base, image), stop, p, 254, n)
    ensures AtLoad(prog, PowerOn(base, image), stop, p + 1, 0, k)
  {
    hide Loaded, Reached, HistoryOf, Pdf.StopsAt, PowerOn, After, TagsAfter, AlwaysSpares, SwitchedOn, ReadWord,
         Committed, NoAccessIn, Entering, Leaving;
    var y, d := PowerOn(base, image), LoadNumber(stop, p, 254);
    PdfStart(base, image);
    PdfSpares(prog, base, image, stop);
    LoadOfBin(prog, base, image, stop, p, 254, n);
    LoadLeaves(prog, y, A0, n, d);
    NumberInM(prog, y, A0, n + 1, d + 1);
    var m := Leaves(prog, y, A0, d + 6);
    NumberInM(prog, y, A0, m, d + 6);
    if m <= n { CommittedGrows(prog, y, m, n); }
    forall i: nat | d + 1 <= i < d + 8
      ensures NoAccessIn(HistoryOf(prog, ArchOf(y.s))(i))
    {
      Passage(prog, base, ArchOf(y.s), stop, p, i);
    }
    Untouched(prog, y, A0, n + 1, m, d + 1, d + 8);
    PassBegins(prog, base, image, stop, p + 1, m);
    k := m + 2;
    EnteringPass(After(prog, y, k).cache, After(prog, y, n).cache.lines, After(prog, y, n).s.mem, p);
  }

  /** The first load of display finds the lines that build left: none with a low tag. */
  lemma FirstLoad(prog: Program, base: Word, image: Memory, stop: nat, p: nat) returns (n: nat)
    requires Loaded(prog, base) && Pdf.StopsAt(image, stop) && p == 0
    ensures AtLoad(prog, PowerOn(base, image), stop, p, p, n)
  {
    hide Loaded, Reached, HistoryOf, Pdf.StopsAt, PowerOn, After, TagsAfter, AlwaysSpares, SwitchedOn, Committed,
         WellSpaced, WellRefreshed, HighOnly, Invariant, RefreshCache;
    var y, d := PowerOn(base, image), LoadNumber(stop, p, 0);
    PdfStart(base, image);
    PdfSpares(prog, base, image, stop);
    PdfWellSpaced(prog, base, ArchOf(y.s), MAIN);
    PdfRefreshes(prog, base, ArchOf(y.s), stop);
    var m := Leaves(prog, y, A0, d - 2);
    NumberInM(prog, y, A0, m, d - 2);
    if m > 0 { CommittedGrows(prog, y, m - 1, m); }
    RefreshRun(prog, y, d, FLOOR, m);
    HighLines(HistoryOf(prog, ArchOf(y.s)), After(prog, y, m), TagsAfter(prog, y, m));
    PassBegins(prog, base, image, stop, p, m);
    n := m + 2;
  }

  lemma HighLines(h: History, z: System, t: Tags)
    requires RefreshCache(h, z, t, FLOOR)
    ensures HighOnly(z.cache.lines, FLOOR) && !(z.cache.lines[0].valid && z.cache.lines[0].tag == 0)
  {
  }

  lemma {:induction false} Arrives(prog: Program, base: Word, image: Memory, stop: nat, p: nat, j: nat)
    returns (n: nat)
    requires Loaded(prog, base) && Pdf.StopsAt(image, stop) && j < 255
    ensures AtLoad(prog, PowerOn(base, image), stop, p, j, n)
    decreases p, j
  {
    hide Loaded, Pdf.StopsAt, PowerOn, AtLoad, LeavesLoad;
    if j > 0 {
      n := Arrives(prog, base, image, stop, p, j - 1);
      n := LoadServed(prog, base, image, stop, p, j - 1, n);
      NextBin(prog, base, image, stop, p, j - 1, n);
      n := n + 5;
    } else if p > 0 {
      n := Arrives(prog, base, image, stop, p - 1, 254);
      n := LoadServed(prog, base, image, stop, p - 1, 254, n);
      n := NextPass(prog, base, image, stop, p - 1, n);
    } else {
      n := FirstLoad(prog, base, image, stop, p);
    }
  }

  // ---------------------------------------------------------------- what is shown

  /** In whichever cycle the load of bin j leaves M, it is served the word at bin Shown(p, j). */
  lemma ServedWord(prog: Program, base: Word, image: Memory, stop: nat, p: nat, j: nat, n: nat)
    requires Loaded(prog, base) && Pdf.StopsAt(image, stop) && j < 255
    requires TagsAfter(prog, PowerOn(base, image), n).m == Real(LoadNumber(stop, p, j))
    requires After(prog, PowerOn(base, image), n).cache.hit
    ensures var z := After(prog, PowerOn(base, image), n); Drives(z).data == ReadWord(z.s.mem, 0x100 + Shown(p, j))
  {
    hide Loaded, Pdf.StopsAt, PowerOn, AtLoad, AlwaysSpares, After, TagsAfter, Leaving, ReadWord, Drives;
    PdfSpares(prog, base, image, stop);
    var k := Arrives(prog, base, image, stop, p, j);
    k := LoadServed(prog, base, image, stop, p, j, k);
    OneDeparture(prog, PowerOn(base, image), A0, k, n, LoadNumber(stop, p, j));
  }

  /** A byte load of a bin reads its count. */
  lemma BinByte(mem: Memory, image: Memory, stop: nat, v: nat)
    requires stop <= 0x1_0000 && Pdf.Histogram(mem, image, stop) && v < 256
    ensures LoadDecode(ReadWord(mem, 0x100 + v), 4) == Pdf.Count(image, v, stop)
  {
    hide Pdf.Count;
    assert mem[0x100 + v] == Pdf.WithBins(image, stop, 0x100 + v);
  }

  lemma ServedByte(z: System, a: nat, b: nat)
    requires z.s.m.memRead && z.s.m.rd == A0 && z.s.m.funct3 == 4 && AddressOf(z.s.m.aluResult) == a < SIZE && b < SIZE
    requires z.cache.hit ==> Drives(z).data == ReadWord(z.s.mem, b)
    ensures LoadData(z.s.m, z.s.mem) == LoadDecode(ReadWord(z.s.mem, a), 4)
    ensures z.cache.hit ==>
      LoadDecode(FoundData(z.s, Drives(z)), z.s.m.funct3) == LoadDecode(ReadWord(z.s.mem, b), 4)
    ensures DataCurrent(z.s, Drives(z)) <==>
      (z.cache.hit ==> LoadDecode(ReadWord(z.s.mem, b), 4) == LoadDecode(ReadWord(z.s.mem, a), 4))
  {
    hide ReadWord, LoadDecode;
  }

  /** Whenever the load of bin j is in M, in any pass, memory holds the count of value j there,
      and the load leaves with that of value Shown(p, j): the cycle is correct exactly when it
      is frozen or the two are equal. */
  lemma DisplayShows(prog: Program, base: Word, image: Memory, stop: nat, p: nat, j: nat, n: nat)
    requires Loaded(prog, base) && Pdf.StopsAt(image, stop) && j < 255
    requires TagsAfter(prog, PowerOn(base, image), n).m == Real(LoadNumber(stop, p, j))
    ensures var z := After(prog, PowerOn(base, image), n);
      && z.s.m.memRead && z.s.m.rd == A0 && AddressOf(z.s.m.aluResult) == 0x100 + j
      && LoadData(z.s.m, z.s.mem) == Pdf.Count(image, j, stop)
      && (z.cache.hit ==> LoadDecode(FoundData(z.s, Drives(z)), z.s.m.funct3) == Pdf.Count(image, Shown(p, j), stop))
      && (CorrectAt(prog, PowerOn(base, image), n) <==>
          (z.cache.hit ==> Pdf.Count(image, Shown(p, j), stop) == Pdf.Count(image, j, stop)))
  {
    hide Loaded, Reached, Pdf.StopsAt, Pdf.Histogram, Pdf.Count, PowerOn, After, TagsAfter, AlwaysSpares, ReadWord,
         LoadDecode, HistoryOf, Committed, DataCurrent, CorrectAt, Drives, FoundData, LoadData, NoneLost, Apart,
         SwitchedOn, AtReset, Orderly, NothingLost, Invariant;
    var y := PowerOn(base, image);
    var z := After(prog, y, n);
    LoadOfBin(prog, base, image, stop, p, j, n);
    HistogramForever(prog, base, image, stop, n);
    StopWithin(image, stop);
    BinByte(z.s.mem, image, stop, j);
    BinByte(z.s.mem, image, stop, Shown(p, j));
    if z.cache.hit { ServedWord(prog, base, image, stop, p, j, n); }
    ServedByte(z, 0x100 + j, 0x100 + Shown(p, j));
    PdfSpares(prog, base, image, stop);
    var _ := ShadowAlways(prog, y, A0, n);
  }

  lemma StopWithin(image: Memory, stop: nat)
    requires Pdf.StopsAt(image, stop)
    ensures stop <= 0x1_0000
  {
    hide Pdf.StopsAt;
    StopPositive(image, stop);
  }

  /** And no other cycle of the machine ever goes wrong. */
  lemma OnlyDisplayWrong(prog: Program, base: Word, image: Memory, stop: nat, n: nat) returns (p: nat, j: nat)
    requires Loaded(prog, base) && Pdf.StopsAt(image, stop) && !CorrectAt(prog, PowerOn(base, image), n)
    ensures TagsAfter(prog, PowerOn(base, image), n).m == Real(LoadNumber(stop, p, j)) && j < 255
    ensures After(prog, PowerOn(base, image), n).cache.hit
    ensures Pdf.Count(image, Shown(p, j), stop) != Pdf.Count(image, j, stop)
  {
    hide Loaded, Reached, Pdf.StopsAt, Pdf.Count, PowerOn, After, TagsAfter, AlwaysSpares, HistoryOf, Invariant,
         Committed, CorrectAt, NoneLost, Apart, Drives, FoundData, LoadData, SwitchedOn, LoadDecode, AtReset, Orderly;
    var y := PowerOn(base, image);
    PdfSpares(prog, base, image, stop);
    var z := ShadowAlways(prog, y, A0, n);
    var k := LoadNumbered(prog, HistoryOf(prog, ArchOf(y.s)), z, TagsAfter(prog, y, n));
    if k < 780 + 8 * stop {
      RefreshedSoFar(prog, base, image, stop, n);
      assert false;
    }
    PdfStart(base, image);
    p, j := WhichLoad(prog, base, ArchOf(y.s), stop, k);
    DisplayShows(prog, base, image, stop, p, j, n);
  }

  ghost predicate AlwaysCorrect(prog: Program, y: System) {
    forall n: nat :: CorrectAt(prog, y, n)
  }

  /** The values 1 to 254 occur equally often. */
  predicate EvenCounts(image: Memory, stop: nat)
    requires stop <= 0x1_0000
  {
    forall j: nat :: 1 <= j < 255 ==> Pdf.Count(image, j, stop) == Pdf.Count(image, 4, stop)
  }

  lemma CountsAgree(prog: Program, base: Word, image: Memory, stop: nat, p: nat, j: nat)
    requires Loaded(prog, base) && Pdf.StopsAt(image, stop) && stop <= 0x1_0000
    requires AlwaysCorrect(prog, PowerOn(base, image)) && p > 0 && 1 <= j < 255
    ensures Pdf.Count(image, j, stop) == Pdf.Count(image, 4, stop)
  {
    hide Loaded, Pdf.StopsAt, Pdf.Count, PowerOn, After, TagsAfter, CorrectAt, AtLoad, FoundData, LoadData, LoadDecode,
         Drives, Leaving;
    var n := Arrives(prog, base, image, stop, p, j);
    n := LoadServed(prog, base, image, stop, p, j, n);
    DisplayShows(prog, base, image, stop, p, j, n);
    assert CorrectAt(prog, PowerOn(base, image), n);
  }

  /** The complete machine executes the program correctly for ever exactly when the values 1
      to 254 occur equally often. */
  lemma PdfCorrectIff(prog: Program, base: Word, image: Memory, stop: nat)
    requires Loaded(prog, base) && Pdf.StopsAt(image, stop)
    ensures stop <= 0x1_0000 && (AlwaysCorrect(prog, PowerOn(base, image)) <==> EvenCounts(image, stop))
  {
    hide Loaded, Pdf.StopsAt, Pdf.Count, PowerOn, After, TagsAfter, CorrectAt;
    StopWithin(image, stop);
    if AlwaysCorrect(prog, PowerOn(base, image)) {
      forall j: nat | 1 <= j < 255
        ensures Pdf.Count(image, j, stop) == Pdf.Count(image, 4, stop)
      {
        CountsAgree(prog, base, image, stop, 1, j);
      }
    } else {
      var n: nat :| !CorrectAt(prog, PowerOn(base, image), n);
      var p, j := OnlyDisplayWrong(prog, base, image, stop, n);
      assert Pdf.Count(image, j, stop) != Pdf.Count(image, 4, stop);
    }
  }

  /** Every cycle is correct up to the one in which the load of bin 5 of the first pass leaves
      M; that one is exactly when the values 4 and 5 occur equally often. */
  lemma DisplayStale(prog: Program, base: Word, image: Memory, stop: nat) returns (n: nat)
    requires Loaded(prog, base) && Pdf.StopsAt(image, stop)
    ensures var y := PowerOn(base, image);
      && Correct(prog, y, n) && TagsAfter(prog, y, n).m == Real(LoadNumber(stop, 0, 5)) && After(prog, y, n).cache.hit
      && (CorrectAt(prog, y, n) <==> Pdf.Count(image, 4, stop) == Pdf.Count(image, 5, stop))
  {
    hide Loaded, Pdf.StopsAt, Pdf.Count, PowerOn, After, TagsAfter, CorrectAt, AtLoad, FoundData, LoadData, LoadDecode,
         Drives, Leaving;
    n := Arrives(prog, base, image, stop, 0, 5);
    n := LoadServed(prog, base, image, stop, 0, 5, n);
    DisplayShows(prog, base, image, stop, 0, 5, n);
    forall k: nat | k < n
      ensures CorrectAt(prog, PowerOn(base, image), k)
    {
      if !CorrectAt(prog, PowerOn(base, image), k) {
        NotEarlier(prog, base, image, stop, k, n);
        assert false;
      }
    }
  }

  lemma NotEarlier(prog: Program, base: Word, image: Memory, stop: nat, k: nat, n: nat)
    requires Loaded(prog, base) && Pdf.StopsAt(image, stop) && !CorrectAt(prog, PowerOn(base, image), k)
    requires TagsAfter(prog, PowerOn(base, image), n).m == Real(LoadNumber(stop, 0, 5))
    ensures k >= n
  {
    hide Loaded, Pdf.StopsAt, Pdf.Count, PowerOn, After, TagsAfter, CorrectAt, AlwaysSpares, Committed;
    var y := PowerOn(base, image);
    PdfSpares(prog, base, image, stop);
    var p, j := OnlyDisplayWrong(prog, base, image, stop, k);
    LoadOfBin(prog, base, image, stop, p, j, k);
    LoadOfBin(prog, base, image, stop, 0, 5, n);
    if k < n {
      Departed(prog, y, A0, k, n, LoadNumber(stop, p, j));
      CommittedGrows(prog, y, k, n);
    }
  }
}
