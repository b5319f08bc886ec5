/** Programs that hold every address for the cache: the complete machine, with its own
    cache, executes them correctly. */
module Held {
  import opened DataMemory
  import opened Pipeline
  import opened Sequential
  import opened Refinement
  import opened Runs
  import opened System
  import Cache

  function AddressIn(i: Insn): Address { AddressOf(i.m.aluResult) }

  predicate Accesses(i: Insn) { i.m.memRead || i.m.memWrite }

  predicate SameLine(a: Address, b: Address) {
    Cache.TagOf(a) == Cache.TagOf(b) && Cache.SetOf(a) == Cache.SetOf(b)
  }

  /** The instruction puts an ALU result into a register and does not access memory. */
  predicate Computes(i: Insn) {
    i.m.regWrite && i.m.rd != 0 && i.m.resultSrc == 0 && !Accesses(i)
  }

  /** What it computes is an address in the line of a. */
  predicate Presents(i: Insn, a: Address) {
    Computes(i) && SameLine(AddressIn(i), a)
  }

  /** An access is word-aligned and both instructions before it compute its word's address. */
  predicate HeldSpaced(h: History, n: nat) {
    Accesses(h(n)) ==>
      var a := AddressIn(h(n));
      n >= 2 && a % 4 == 0 && Presents(h(n - 1), a) && Presents(h(n - 2), a)
  }

  /** A property of the sequential execution alone. */
  ghost predicate WellHeld(prog: Program, a: Arch) {
    forall n: nat :: HeldSpaced(HistoryOf(prog, a), n)
  }

  lemma HeldAt(prog: Program, a: Arch, n: nat)
    requires WellHeld(prog, a)
    ensures HeldSpaced(HistoryOf(prog, a), n)
  {
  }

  /** What an instruction computes is in its register next. */
  lemma ComputedWritten(prog: Program, h: History, n: nat)
    requires IsHistory(prog, h) && Computes(h(n))
    ensures h(n + 1).before.regs[h(n).m.rd] == h(n).m.aluResult && h(n + 1).before.mem == h(n).before.mem
  {
    hide IsHistory, Decode, Execute, Redirects, Target, Fetch, LoadData;
    LinkedRegs(prog, h, n);
    LinkedStages(prog, h, n);
    StageFields(prog, h, n);
    NoStore(h(n).m, h(n).before.mem);
  }

  // ------------------------------------------------------------ cache invariant

  /** With instruction n in M: an access finds its own line registered, and when the next
      instruction is an access, its line is registered already. */
  predicate Holding(h: History, c: Cache.CacheState, n: nat) {
    && (Accesses(h(n)) ==> Cache.Holds(c, AddressIn(h(n))) && (c.hit ==> Cache.Present(c)))
    && (h(n).m.memWrite ==> c.hit == Cache.Present(c))
    && (Accesses(h(n + 1)) ==> Cache.Holds(c, AddressIn(h(n))))
  }

  predicate HeldCache(h: History, y: System, t: Tags) {
    && Cache.Coherent(y.cache.lines, y.s.mem)
    && (t.m.Real? ==> Holding(h, y.cache, t.m.n))
    && (t.m.Bubble? ==> !Accesses(h(Committed(t))) && !Accesses(h(Committed(t) + 1)))
  }

  /** An address that M's instruction uses or shows to the cache is the sequential one. */
  lemma AddressInM(prog: Program, h: History, s: State, t: Tags)
    requires Invariant(prog, h, s, t) && t.m.Real?
    ensures s.m.memRead == h(t.m.n).m.memRead && s.m.memWrite == h(t.m.n).m.memWrite
    ensures UsesResult(h(t.m.n).m) ==> AddressOf(s.m.aluResult) == AddressIn(h(t.m.n))
    ensures s.m.memRead ==> !s.m.memWrite
  {
    StageFields(prog, h, t.m.n);
  }

  /** A held load that hits is served the memory's word. */
  lemma HeldData(prog: Program, h: History, y: System, t: Tags)
    requires Invariant(prog, h, y.s, t) && HeldCache(h, y, t) && (t.m.Real? ==> HeldSpaced(h, t.m.n))
    ensures DataCurrent(y.s, Drives(y))
  {
    hide Invariant, ReadWord, LoadDecode, Presents, Cache.LineAddress, Cache.TagOf, Cache.SetOf;
    Signals(y.s, t) by { IsOrderly(prog, h, y.s, t); }
    if y.s.m.memRead && y.cache.hit {
      var a := AddressOf(y.s.m.aluResult);
      AddressInM(prog, h, y.s, t);
      Cache.AddressRoundTrip(a, 0, 0);
      assert Cache.LineCoherent(y.cache.lines, y.cache.aSet, y.s.mem);
    }
  }

  /** The lines stay coherent with the memory each cycle leaves. */
  lemma CoherentKept(prog: Program, h: History, y: System, t: Tags)
    requires Invariant(prog, h, y.s, t) && HeldCache(h, y, t) && (t.m.Real? ==> HeldSpaced(h, t.m.n))
    ensures var z := Tick(prog, y); Cache.Coherent(z.cache.lines, z.s.mem)
  {
    hide Invariant, ReadWord, LoadDecode, WriteLanes, Presents, Cache.LineAddress, Cache.TagOf, Cache.SetOf,
         Cache.Merge;
    Signals(y.s, t) by { IsOrderly(prog, h, y.s, t); }
    var m, c, p := y.s.m, y.cache, PortOfM(y.s);
    if t.m.Real? { AddressInM(prog, h, y.s, t); }
    if m.memWrite {
      var _ := MemWriteIsReal(prog, h, y.s, t);
      Cache.HeldAccess(c, Cache.Store(p.a, m.writeData, m.funct3), y.s.mem);
    } else {
      NoStore(m, y.s.mem);
      if m.memRead && !c.hit {
        Cache.AddressRoundTrip(p.a, 0, 0);
        Cache.RefillIff(c, p, y.s.mem);
      }
    }
  }

  lemma MemWriteIsReal(prog: Program, h: History, s: State, t: Tags) returns (n: nat)
    requires Invariant(prog, h, s, t) && s.m.memWrite
    ensures t.m == Real(n)
  {
    n := t.m.n;
  }

  /** Behind a computed result M never holds a bubble. */
  lemma NoGap(prog: Program, h: History, s: State, t: Tags)
    requires Invariant(prog, h, s, t) && t.m.Real? && Computes(h(t.m.n))
    ensures t.e == Real(t.m.n + 1) && !s.m.memRead && !s.m.memWrite
    ensures AddressOf(s.m.aluResult) == AddressIn(h(t.m.n))
  {
    StageFields(prog, h, t.m.n);
    AddressInM(prog, h, s, t);
  }

  /** What the cycle leaves registered. */
  lemma RegisteredNext(prog: Program, y: System)
    ensures var z := Tick(prog, y);
      Cache.Holds(z.cache, AddressOf(y.s.m.aluResult)) && z.cache.hit == Cache.Present(y.cache)
    ensures !y.s.m.memRead && !y.s.m.memWrite ==> Tick(prog, y).cache.lines == y.cache.lines
  {
  }

  /** M moves on: the next instruction finds what it needs registered. */
  lemma HoldingMoves(prog: Program, h: History, y: System, t: Tags, n: nat)
    requires Invariant(prog, h, y.s, t) && t.m == Real(n) && Holding(h, y.cache, n)
    requires HeldSpaced(h, n + 1) && HeldSpaced(h, n + 2)
    ensures t.e.Real? ==> Holding(h, Tick(prog, y).cache, n + 1)
    ensures t.e.Bubble? ==> !Accesses(h(n + 1)) && !Accesses(h(n + 2))
  {
    hide Invariant, Tick, Cache.TagOf, Cache.SetOf;
    RegisteredNext(prog, y);
    if Accesses(h(n + 1)) {
      NoGap(prog, h, y.s, t);
    }
    if Accesses(h(n + 2)) {
      NoGap(prog, h, y.s, t);
    }
  }

  /** M is frozen: the refill makes the registered line present. */
  lemma HoldingFrozen(prog: Program, h: History, y: System, t: Tags, n: nat)
    requires Invariant(prog, h, y.s, t) && t.m == Real(n) && Holding(h, y.cache, n)
    requires Frozen(y.s, Drives(y)) && HeldSpaced(h, n + 1)
    ensures Holding(h, Tick(prog, y).cache, n)
  {
    hide Invariant, Step, Cache.TagOf, Cache.SetOf, ReadWord;
    AddressInM(prog, h, y.s, t);
    RegisteredNext(prog, y);
  }

  lemma SlotNumbers(t: Tags)
    requires InOrder(t)
    ensures t.m.Real? ==> t.m.n == Committed(t)
    ensures t.e.Real? ==> t.e.n == Committed(t) + Refinement.Count(t.m)
  {
  }

  lemma HeldKept(prog: Program, h: History, y: System, t: Tags)
    requires Invariant(prog, h, y.s, t) && CycleOk(y.s, Drives(y)) && HeldCache(h, y, t)
    requires forall k: nat :: k <= Committed(t) + 2 ==> HeldSpaced(h, k)
    ensures HeldCache(h, Tick(prog, y), NextTags(y.s, Drives(y), t))
  {
    hide ForwardsResult, SuccessorRight, DataCurrent, Tick, Cache.Coherent, HeldSpaced, Holding, Invariant, PCSrcE,
         LoadUseStall, Orderly, Drives, Accesses;
    SlotNumbers(t) by { IsOrderly(prog, h, y.s, t); }
    var k := Committed(t);
    assert HeldSpaced(h, k) && HeldSpaced(h, k + 1) && HeldSpaced(h, k + 2);
    CoherentKept(prog, h, y, t);
    if Frozen(y.s, Drives(y)) {
      Signals(y.s, t) by { IsOrderly(prog, h, y.s, t); }
      HoldingFrozen(prog, h, y, t, k);
    } else if t.m.Real? {
      HoldingMoves(prog, h, y, t, k);
    } else if t.e.Real? {
      NothingHeld(h, Tick(prog, y).cache, k);
    }
  }

  lemma NothingHeld(h: History, c: Cache.CacheState, n: nat)
    requires !Accesses(h(n)) && !Accesses(h(n + 1))
    ensures Holding(h, c, n)
  {
  }

  // ---------------------------------------------------------------- whole runs

  lemma HeldTick(prog: Program, a: Arch, z: System, t: Tags)
    requires WellSpaced(prog, a) && WellHeld(prog, a)
    requires Invariant(prog, HistoryOf(prog, a), z.s, t) && HeldCache(HistoryOf(prog, a), z, t)
    ensures CycleOk(z.s, Drives(z))
    ensures Invariant(prog, HistoryOf(prog, a), Step(prog, z.s, Drives(z)), NextTags(z.s, Drives(z), t))
    ensures HeldCache(HistoryOf(prog, a), Tick(prog, z), NextTags(z.s, Drives(z), t))
  {
    hide Invariant, CycleOk, Tick, HistoryOf, WellSpaced, WellHeld, HeldCache, HeldSpaced, Spaced, Drives;
    var h := HistoryOf(prog, a);
    forall k: nat
      ensures HeldSpaced(h, k) && Spaced(h, k)
    {
      HeldAt(prog, a, k);
      SpacedAt(prog, a, k);
    }
    HeldData(prog, h, z, t);
    SpacedCycle(prog, h, z.s, Drives(z), t);
    CycleKeeps(prog, h, z.s, Drives(z), t);
    HeldKept(prog, h, z, t);
  }

  lemma HeldStart(prog: Program, y: System, t: Tags)
    requires Cache.Coherent(y.cache.lines, y.s.mem) && WellHeld(prog, ArchOf(y.s))
    requires t.m.Bubble? && Committed(t) == 0
    ensures HeldCache(HistoryOf(prog, ArchOf(y.s)), y, t)
  {
    hide HeldSpaced, HeldCache, Committed, Cache.Coherent, WellHeld, HistoryOf;
    HeldAt(prog, ArchOf(y.s), Committed(t));
    HeldAt(prog, ArchOf(y.s), Committed(t) + 1);
    HeldAtStart(HistoryOf(prog, ArchOf(y.s)), y, t, Committed(t));
  }

  lemma {:induction false} HeldRun(prog: Program, y: System, n: nat)
    requires AtReset(y.s) && Cache.Coherent(y.cache.lines, y.s.mem)
    requires WellSpaced(prog, ArchOf(y.s)) && WellHeld(prog, ArchOf(y.s))
    ensures var h, z, t := HistoryOf(prog, ArchOf(y.s)), After(prog, y, n), TagsAfter(prog, y, n);
      Correct(prog, y, n) && Invariant(prog, h, z.s, t) && HeldCache(h, z, t)
  {
    hide Invariant, CycleOk, Tick, After, TagsAfter, HistoryOf, AtReset, WellSpaced, WellHeld, HeldCache, Drives,
         CorrectAt, Cache.Coherent, Orderly, Step, NextTags, Committed;
    if n == 0 {
      StartInvariant(prog, y);
      StartTags(prog, y);
      HeldStart(prog, y, TagsAfter(prog, y, n));
    } else {
      HeldRun(prog, y, n - 1);
      TickStep(prog, y, n - 1);
      HeldTick(prog, ArchOf(y.s), After(prog, y, n - 1), TagsAfter(prog, y, n - 1));
      CorrectSoFar(prog, y, n);
    }
  }

  lemma HeldAtStart(h: History, y: System, t: Tags, n: nat)
    requires Cache.Coherent(y.cache.lines, y.s.mem) && t.m.Bubble? && Committed(t) == n && n == 0
    requires HeldSpaced(h, n) && HeldSpaced(h, n + 1)
    ensures HeldCache(h, y, t)
  {
    hide Cache.Coherent, Committed;
  }

  /** The complete machine refines the sequential one, with nothing assumed of its cache
      but coherent lines at reset, for every program that holds its addresses. */
  lemma HeldRefines(prog: Program, y: System, n: nat)
    requires AtReset(y.s) && Cache.Coherent(y.cache.lines, y.s.mem)
    requires WellSpaced(prog, ArchOf(y.s)) && WellHeld(prog, ArchOf(y.s))
    ensures Correct(prog, y, n)
    ensures var s := After(prog, y, n).s;
      var x := Seq(prog, ArchOf(y.s), Committed(TagsAfter(prog, y, n)));
      WriteRegister(s.regs, s.w) == x.regs && s.mem == x.mem
    ensures Cache.Coherent(After(prog, y, n).cache.lines, After(prog, y, n).s.mem)
  {
    hide After, TagsAfter, Seq, Correct, Invariant, AtReset;
    HeldRun(prog, y, n);
    InvariantRefines(prog, ArchOf(y.s), After(prog, y, n).s, TagsAfter(prog, y, n));
  }

  /** And it makes progress: 10 + 6k cycles retire at least k instructions. */
  lemma HeldRate(prog: Program, y: System, k: nat)
    requires AtReset(y.s) && Cache.Coherent(y.cache.lines, y.s.mem)
    requires WellSpaced(prog, ArchOf(y.s)) && WellHeld(prog, ArchOf(y.s))
    ensures TagsAfter(prog, y, 10 + 6 * k).retired >= k
  {
    hide After, TagsAfter, Correct, AtReset, NoneLost;
    HeldRefines(prog, y, 10 + 6 * k);
    CorrectNoneLost(prog, y, 10 + 6 * k);
    SystemRate(prog, y, k);
  }
}
