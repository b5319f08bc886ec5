/** Programs that make every load miss and refill: on a cache that starts out empty the
    complete machine executes them correctly too, though the lines go stale. */
module Refresh {
  import opened Words
  import opened DataMemory
  import opened Pipeline
  import opened Sequential
  import opened Refinement
  import opened Runs
  import opened System
  import opened Held
  import Cache

  /** M shows the cache an address with a tag below f. */
  predicate Low(i: Insn, f: nat) {
    UsesResult(i.m) && Cache.TagOf(AddressIn(i)) < f
  }

  /** M holds a bubble, which shows address 0, right after instruction n. */
  predicate BubbleAfter(h: History, n: nat) {
    !Straight(h, n) || (h(n).e.memRead && Names(h(n + 1), h(n).m.rd))
  }

  predicate LowBefore(h: History, n: nat, f: nat) {
    n == 0 || BubbleAfter(h, n - 1) || Low(h(n - 1), f)
  }

  ghost predicate NoLoads(h: History, n: nat) {
    forall k: nat :: k <= n ==> !h(k).m.memRead
  }

  /** Loads have tags from f up; each is preceded by the instruction that computes its
      address, and that one by a low address. A store after the first load is preceded by
      a low address and one more instruction. */
  ghost predicate RefreshSpaced(h: History, n: nat, f: nat) {
    && (h(n).m.memRead ==>
          && n >= 1 && Presents(h(n - 1), AddressIn(h(n))) && LowBefore(h, n - 1, f)
          && Cache.TagOf(AddressIn(h(n))) >= f)
    && (h(n).m.memWrite ==> NoLoads(h, n) || (n >= 1 && Computes(h(n - 1)) && LowBefore(h, n - 1, f)))
  }

  // ------------------------------------------------------------ cache invariant

  /** Only tags from f up are valid. */
  predicate HighOnly(lines: Cache.Lines, f: nat) {
    forall index: U3 :: lines[index].valid ==> lines[index].tag >= f
  }

  /** With instruction n in M: a load is registered and not served a stale line, a store
      finds no hit, and after a low address the next cycle will not hit. */
  predicate Refreshing(h: History, c: Cache.CacheState, mem: Memory, n: nat, f: nat) {
    && (h(n).m.memRead ==>
          Cache.Holds(c, AddressIn(h(n))) && (c.hit ==> Cache.Read(c) == ReadWord(mem, AddressIn(h(n)))))
    && (h(n).m.memWrite ==> !c.hit)
    && (!h(n).m.memRead && LowBefore(h, n, f) ==> c.aTag < f)
  }

  ghost predicate RefreshCache(h: History, y: System, t: Tags, f: nat) {
    && HighOnly(y.cache.lines, f)
    && (NoLoads(h, Committed(t)) ==> Cache.AllInvalid(y.cache.lines) && !y.cache.hit)
    && (t.m.Real? ==> Refreshing(h, y.cache, y.s.mem, t.m.n, f))
    && (t.m.Bubble? ==>
          var k := Committed(t); !h(k).m.memRead && (h(k).m.memWrite ==> NoLoads(h, k)))
  }

  lemma RefreshData(prog: Program, h: History, y: System, t: Tags, f: nat)
    requires Invariant(prog, h, y.s, t) && RefreshCache(h, y, t, f)
    ensures DataCurrent(y.s, Drives(y))
  {
    hide Invariant, ReadWord, LoadDecode;
    Signals(y.s, t) by { IsOrderly(prog, h, y.s, t); }
    if y.s.m.memRead && y.cache.hit {
      AddressInM(prog, h, y.s, t);
    }
  }

  /** Only a load changes the lines, and only its own. */
  lemma LinesNext(prog: Program, h: History, y: System, t: Tags, f: nat)
    requires Invariant(prog, h, y.s, t) && RefreshCache(h, y, t, f)
    requires t.m.Real? && h(t.m.n).m.memRead ==> Cache.TagOf(AddressIn(h(t.m.n))) >= f
    ensures HighOnly(Tick(prog, y).cache.lines, f)
    ensures !y.s.m.memRead ==> Tick(prog, y).cache.lines == y.cache.lines
    ensures y.s.m.memRead && !y.cache.hit ==>
      Tick(prog, y).cache.lines[y.cache.aSet] ==
        Cache.Line(true, y.cache.aTag, ReadWord(y.s.mem, AddressOf(y.s.m.aluResult)))
  {
    hide Invariant, ReadWord, Cache.Merge, Cache.TagOf, Cache.SetOf, Step;
    Signals(y.s, t) by { IsOrderly(prog, h, y.s, t); }
    if y.s.m.memWrite {
      var _ := MemWriteIsReal(prog, h, y.s, t);
    }
    if t.m.Real? { AddressInM(prog, h, y.s, t); }
  }

  lemma AdjacentNotBubble(prog: Program, h: History, s: State, t: Tags)
    requires Invariant(prog, h, s, t) && t.m.Real? && t.e.Real?
    ensures !BubbleAfter(h, t.m.n)
  {
    StageFields(prog, h, t.m.n);
    StageFields(prog, h, t.e.n);
  }

  lemma FewerLoads(h: History, n: nat)
    ensures NoLoads(h, n + 1) ==> NoLoads(h, n)
  {
  }

  /** M moves on to the next instruction. */
  lemma RefreshMoves(prog: Program, h: History, y: System, t: Tags, n: nat, f: nat)
    requires Invariant(prog, h, y.s, t) && RefreshCache(h, y, t, f) && t.m == Real(n)
    requires RefreshSpaced(h, n, f) && RefreshSpaced(h, n + 1, f)
    ensures t.e.Real? ==> Refreshing(h, Tick(prog, y).cache, Tick(prog, y).s.mem, n + 1, f)
    ensures t.e.Bubble? ==> !h(n + 1).m.memRead && (h(n + 1).m.memWrite ==> NoLoads(h, n + 1))
  {
    hide Invariant, Tick, Cache.TagOf, Cache.SetOf, ReadWord, BubbleAfter, Cache.Read, NoLoads, HighOnly,
         Cache.AllInvalid, Cache.Present;
    FewerLoads(h, n);
    RegisteredNext(prog, y);
    SlotNumbers(t) by { IsOrderly(prog, h, y.s, t); }
    AddressInM(prog, h, y.s, t);
    NoHitNext(y.cache, f);
    if t.e.Real? { AdjacentNotBubble(prog, h, y.s, t); }
    if Computes(h(n)) { NoGap(prog, h, y.s, t); }
  }

  /** Neither a low address nor empty lines lead to a hit in the next cycle. */
  lemma NoHitNext(c: Cache.CacheState, f: nat)
    ensures HighOnly(c.lines, f) && c.aTag < f ==> !Cache.Present(c)
    ensures Cache.AllInvalid(c.lines) ==> !Cache.Present(c)
  {
  }

  /** M is frozen: the refill puts the load's own word where the next hit will look. */
  lemma RefreshFrozen(prog: Program, h: History, y: System, t: Tags, n: nat, f: nat)
    requires Invariant(prog, h, y.s, t) && RefreshCache(h, y, t, f) && t.m == Real(n) && RefreshSpaced(h, n, f)
    requires Frozen(y.s, Drives(y))
    ensures Refreshing(h, Tick(prog, y).cache, y.s.mem, n, f)
  {
    hide Invariant, Tick, Cache.TagOf, Cache.SetOf, ReadWord, NoLoads, HighOnly, LowBefore, Cache.AllInvalid;
    Signals(y.s, t) by { IsOrderly(prog, h, y.s, t); }
    AddressInM(prog, h, y.s, t);
    RegisteredNext(prog, y);
    LinesNext(prog, h, y, t, f);
  }

  /** M was empty: the address registered is 0. */
  lemma RefreshEnters(prog: Program, h: History, y: System, t: Tags, n: nat, f: nat)
    requires Invariant(prog, h, y.s, t) && RefreshCache(h, y, t, f) && Quiet(y.s, t) && f > 0
    requires t.m == Bubble && Committed(t) == n
    ensures Refreshing(h, Tick(prog, y).cache, Tick(prog, y).s.mem, n, f)
  {
    hide Invariant, Tick, ReadWord, NoLoads, HighOnly, LowBefore, Cache.AllInvalid, Cache.Present;
    RegisteredNext(prog, y);
    NoHitNext(y.cache, f);
  }

  lemma EmptyStays(prog: Program, h: History, y: System, t: Tags, f: nat)
    requires Invariant(prog, h, y.s, t) && RefreshCache(h, y, t, f) && NoLoads(h, Committed(t))
    ensures Cache.AllInvalid(Tick(prog, y).cache.lines) && !Tick(prog, y).cache.hit
  {
    hide Invariant, Tick, ReadWord, HighOnly, Refreshing, Cache.Present, Cache.AllInvalid;
    SlotNumbers(t) by { IsOrderly(prog, h, y.s, t); }
    Signals(y.s, t) by { IsOrderly(prog, h, y.s, t); }
    if t.m.Real? { AddressInM(prog, h, y.s, t); }
    LinesNext(prog, h, y, t, f);
    RegisteredNext(prog, y);
    NoHitNext(y.cache, f);
  }

  lemma RefreshKept(prog: Program, h: History, y: System, t: Tags, f: nat)
    requires Invariant(prog, h, y.s, t) && CycleOk(y.s, Drives(y)) && RefreshCache(h, y, t, f) && Quiet(y.s, t) && f > 0
    requires RefreshSpaced(h, Committed(t), f)
    requires var t' := NextTags(y.s, Drives(y), t); Committed(t') > Committed(t) ==> RefreshSpaced(h, Committed(t'), f)
    ensures RefreshCache(h, Tick(prog, y), NextTags(y.s, Drives(y), t), f)
  {
    hide ForwardsResult, SuccessorRight, DataCurrent, Tick, RefreshSpaced, Refreshing, Invariant, PCSrcE, HighOnly,
         LoadUseStall, Orderly, Drives, Cache.AllInvalid, NoLoads, Quiet;
    SlotNumbers(t) by { IsOrderly(prog, h, y.s, t); }
    var k := Committed(t);
    HighStays(prog, h, y, t, f);
    FewerLoads(h, k);
    if NoLoads(h, k) { EmptyStays(prog, h, y, t, f); }
    if Frozen(y.s, Drives(y)) {
      Signals(y.s, t) by { IsOrderly(prog, h, y.s, t); }
      MemHeld(prog, y);
      RefreshFrozen(prog, h, y, t, k, f);
    } else if t.m.Real? {
      RefreshMoves(prog, h, y, t, k, f);
    } else if t.e.Real? {
      RefreshEnters(prog, h, y, t, k, f);
    }
  }

  lemma MemHeld(prog: Program, y: System)
    requires !y.s.m.memWrite
    ensures Tick(prog, y).s.mem == y.s.mem
  {
    NoStore(y.s.m, y.s.mem);
  }

  lemma HighStays(prog: Program, h: History, y: System, t: Tags, f: nat)
    requires Invariant(prog, h, y.s, t) && RefreshCache(h, y, t, f) && RefreshSpaced(h, Committed(t), f)
    ensures HighOnly(Tick(prog, y).cache.lines, f)
  {
    hide Invariant, Tick, HighOnly, Refreshing, Presents, LowBefore;
    SlotNumbers(t) by { IsOrderly(prog, h, y.s, t); }
    LinesNext(prog, h, y, t, f);
  }

  // ---------------------------------------------------------------- whole runs

  /** The first limit instructions of the sequential execution refresh. */
  ghost predicate WellRefreshed(prog: Program, a: Arch, limit: nat, f: nat) {
    f > 0 && forall k: nat :: k < limit ==> RefreshSpaced(HistoryOf(prog, a), k, f)
  }

  lemma RefreshTick(prog: Program, a: Arch, z: System, t: Tags, limit: nat, f: nat)
    requires WellSpaced(prog, a) && WellRefreshed(prog, a, limit, f)
    requires Invariant(prog, HistoryOf(prog, a), z.s, t) && Quiet(z.s, t) && Committed(t) < limit
    requires RefreshCache(HistoryOf(prog, a), z, t, f)
    ensures CycleOk(z.s, Drives(z))
    ensures Invariant(prog, HistoryOf(prog, a), Step(prog, z.s, Drives(z)), NextTags(z.s, Drives(z), t))
    ensures var t' := NextTags(z.s, Drives(z), t);
      Committed(t') < limit ==> RefreshCache(HistoryOf(prog, a), Tick(prog, z), t', f)
  {
    hide Invariant, CycleOk, Tick, HistoryOf, WellSpaced, RefreshCache, RefreshSpaced, Spaced, Drives, Quiet, Committed;
    var h := HistoryOf(prog, a);
    forall k: nat
      ensures Spaced(h, k)
    {
      SpacedAt(prog, a, k);
    }
    RefreshData(prog, h, z, t, f);
    SpacedCycle(prog, h, z.s, Drives(z), t);
    CycleKeeps(prog, h, z.s, Drives(z), t);
    if Committed(NextTags(z.s, Drives(z), t)) < limit {
      RefreshKept(prog, h, z, t, f);
    }
  }

  lemma RefreshStart(h: History, y: System, t: Tags, n: nat, f: nat)
    requires Cache.AllInvalid(y.cache.lines) && !y.cache.hit && t.m.Bubble? && Committed(t) == n && n == 0
    requires RefreshSpaced(h, n, f)
    ensures RefreshCache(h, y, t, f)
  {
    hide Committed, Refreshing;
  }

  /** A machine in the state it is switched on in. */
  ghost predicate SwitchedOn(y: System) {
    AtReset(y.s) && Quiet(y.s, EMPTY_TAGS) && Cache.AllInvalid(y.cache.lines) && !y.cache.hit
  }

  lemma RefreshAtStart(prog: Program, y: System, limit: nat, f: nat, t: Tags)
    requires SwitchedOn(y) && WellRefreshed(prog, ArchOf(y.s), limit, f) && limit > 0
    requires t.m.Bubble? && Committed(t) == 0
    ensures RefreshCache(HistoryOf(prog, ArchOf(y.s)), y, t, f)
  {
    hide RefreshSpaced, RefreshCache, Committed, Cache.AllInvalid, HistoryOf, AtReset, Quiet;
    RefreshStart(HistoryOf(prog, ArchOf(y.s)), y, t, Committed(t), f);
  }

  /** Until limit instructions have reached W every cycle is correct. */
  lemma {:induction false} RefreshRun(prog: Program, y: System, limit: nat, f: nat, n: nat)
    requires SwitchedOn(y) && WellSpaced(prog, ArchOf(y.s)) && WellRefreshed(prog, ArchOf(y.s), limit, f) && limit > 0
    requires n > 0 ==> Committed(TagsAfter(prog, y, n - 1)) < limit
    ensures var h, z, t := HistoryOf(prog, ArchOf(y.s)), After(prog, y, n), TagsAfter(prog, y, n);
      Correct(prog, y, n) && Invariant(prog, h, z.s, t) && (Committed(t) < limit ==> RefreshCache(h, z, t, f))
  {
    hide Invariant, CycleOk, Tick, After, TagsAfter, HistoryOf, AtReset, WellSpaced, WellRefreshed, RefreshCache,
         Drives, CorrectAt, Cache.AllInvalid, Orderly, Step, NextTags, Quiet, Committed;
    if n == 0 {
      StartInvariant(prog, y);
      StartTags(prog, y);
      RefreshAtStart(prog, y, limit, f, TagsAfter(prog, y, n));
    } else {
      if n > 1 { CommittedGrows(prog, y, n - 2, n - 1); }
      RefreshRun(prog, y, limit, f, n - 1);
      CorrectNoneLost(prog, y, n - 1);
      QuietRun(prog, y, n - 1);
      TickStep(prog, y, n - 1);
      RefreshTick(prog, ArchOf(y.s), After(prog, y, n - 1), TagsAfter(prog, y, n - 1), limit, f);
      CorrectSoFar(prog, y, n);
    }
  }

  /** The complete machine refines the sequential one, with nothing assumed of its cache but
      that it starts out empty, for the instructions of a program that refreshes. */
  lemma RefreshRefines(prog: Program, y: System, limit: nat, f: nat, n: nat)
    requires SwitchedOn(y) && WellSpaced(prog, ArchOf(y.s)) && WellRefreshed(prog, ArchOf(y.s), limit, f)
    requires Committed(TagsAfter(prog, y, n)) < limit
    ensures Correct(prog, y, n)
    ensures var s := After(prog, y, n).s;
      var x := Seq(prog, ArchOf(y.s), Committed(TagsAfter(prog, y, n)));
      WriteRegister(s.regs, s.w) == x.regs && s.mem == x.mem
  {
    hide Invariant, After, TagsAfter, HistoryOf, SwitchedOn, WellSpaced, WellRefreshed, RefreshCache, Correct, Seq,
         Committed;
    if n > 0 { CommittedGrows(prog, y, n - 1, n); }
    RefreshRun(prog, y, limit, f, n);
    InvariantRefines(prog, ArchOf(y.s), After(prog, y, n).s, TagsAfter(prog, y, n));
  }

  /** And it gets there: instruction k - 1 reaches W within 10 + 6k cycles. */
  lemma RefreshReaches(prog: Program, y: System, limit: nat, f: nat, k: nat) returns (n: nat)
    requires SwitchedOn(y) && WellSpaced(prog, ArchOf(y.s)) && WellRefreshed(prog, ArchOf(y.s), limit, f) && k <= limit
    ensures n <= 10 + 6 * k && Committed(TagsAfter(prog, y, n)) == k
  {
    hide After, TagsAfter, WellSpaced, WellRefreshed, Committed, AtReset, Quiet, Cache.AllInvalid;
    if Committed(TagsAfter(prog, y, 10 + 6 * k)) < k {
      RefreshRefines(prog, y, limit, f, 10 + 6 * k);
      CorrectNoneLost(prog, y, 10 + 6 * k);
      SystemRate(prog, y, k);
      CommittedAhead(TagsAfter(prog, y, 10 + 6 * k));
      assert false;
    }
    n := FirstReach(prog, y, 10 + 6 * k, k);
  }

  lemma {:induction false} FirstReach(prog: Program, y: System, m: nat, k: nat) returns (n: nat)
    requires Committed(TagsAfter(prog, y, m)) >= k
    ensures n <= m && Committed(TagsAfter(prog, y, n)) == k
  {
    hide After, TagsAfter, Committed;
    n := m;
    if Committed(TagsAfter(prog, y, m)) > k {
      StartTags(prog, y);
      CommittedGrows(prog, y, m - 1, m);
      n := FirstReach(prog, y, m - 1, k);
    }
  }

  /** The cycle in which instruction k leaves M. */
  lemma {:induction false} LeavesAt(prog: Program, y: System, m: nat, k: nat) returns (n: nat)
    requires Committed(TagsAfter(prog, y, m)) > k
    ensures n < m && Committed(TagsAfter(prog, y, n)) == k && Committed(TagsAfter(prog, y, n + 1)) == k + 1
  {
    hide After, TagsAfter, Committed;
    StartTags(prog, y);
    CommittedGrows(prog, y, m - 1, m);
    n := m - 1;
    if Committed(TagsAfter(prog, y, m - 1)) > k {
      n := LeavesAt(prog, y, m - 1, k);
    }
  }
}
