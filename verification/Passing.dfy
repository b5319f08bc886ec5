/** How instructions pass through M, and what that does to the cache, on a machine that gets
    everything right but what it loads into a register no instruction names. */
module Passing {
  import opened Words
  import opened DataMemory
  import opened Pipeline
  import opened Sequential
  import opened Refinement
  import opened Runs
  import opened System
  import opened Held
  import opened Refresh
  import opened Unread
  import T = Throughput
  import Cache

  predicate NoAccessIn(i: Insn) {
    !i.m.memRead && !i.m.memWrite
  }

  lemma LoadFields(prog: Program, h: History, s: State, t: Tags)
    requires Invariant(prog, h, s, t) && t.m.Real? && h(t.m.n).m.memRead
    ensures s.m.memRead && !s.m.memWrite && s.m.funct3 == h(t.m.n).m.funct3 && s.m.rd == h(t.m.n).m.rd
    ensures AddressOf(s.m.aluResult) == AddressOf(h(t.m.n).m.aluResult)
  {
  }

  /** A cycle in which M does not access memory. */
  lemma PassiveTick(prog: Program, y: System, q: Reg, n: nat)
    requires AlwaysSpares(prog, y, q)
    requires var z := After(prog, y, n); !z.s.m.memRead && !z.s.m.memWrite
    ensures var z, x := After(prog, y, n), After(prog, y, n + 1);
      && x.s.mem == z.s.mem && x.cache.lines == z.cache.lines && x.cache.hit == Cache.Present(z.cache)
      && Cache.Holds(x.cache, AddressOf(z.s.m.aluResult))
    ensures TagsAfter(prog, y, n + 1).m == TagsAfter(prog, y, n).e
    ensures TagsAfter(prog, y, n).e == Bubble ==>
      && TagsAfter(prog, y, n + 1).e == TagsAfter(prog, y, n).d
      && TagsAfter(prog, y, n + 1).d == Real(TagsAfter(prog, y, n).fetch)
  {
    hide Invariant, After, TagsAfter, HistoryOf, AlwaysSpares, Tick, Step, PCSrcE, LoadUseStall, Cache.Present,
         Cache.Holds, NothingLost, Orderly;
    var z, t := After(prog, y, n), TagsAfter(prog, y, n);
    var _ := ShadowAlways(prog, y, q, n);
    TickStep(prog, y, n);
    RegisteredNext(prog, z);
    MemHeld(prog, z);
    Idles(z.s, t);
  }

  /** A frozen cycle. */
  lemma WaitingTick(prog: Program, y: System, q: Reg, n: nat)
    requires AlwaysSpares(prog, y, q)
    requires Frozen(After(prog, y, n).s, Drives(After(prog, y, n)))
    ensures TagsAfter(prog, y, n + 1) == TagsAfter(prog, y, n)
    ensures var z, x := After(prog, y, n), After(prog, y, n + 1);
      && x.s.m == z.s.m && x.s.mem == z.s.mem && PortOfM(x.s) == PortOfM(z.s)
      && x.cache == Cache.Edge(z.cache, PortOfM(z.s))
  {
    hide Invariant, After, TagsAfter, HistoryOf, AlwaysSpares, Tick, Step, PCSrcE, LoadUseStall, Cache.Edge, PortOfM,
         Orderly;
    var z, t := After(prog, y, n), TagsAfter(prog, y, n);
    var _ := ShadowAlways(prog, y, q, n);
    TickStep(prog, y, n);
    Signals(z.s, t);
    HeldPort(prog, z);
  }

  /** The lines once a load has refilled both the line registered when it came and its own. */
  function RefilledTwice(c: Cache.CacheState, p: Cache.Port): Cache.Lines {
    var lines := c.lines[c.aSet := Cache.Line(true, c.aTag, p.found)];
    lines[Cache.SetOf(p.a) := Cache.Line(true, Cache.TagOf(p.a), p.found)]
  }

  /** A load that finds another address registered, and no hit, waits two or three cycles. */
  lemma MissTwice(c: Cache.CacheState, p: Cache.Port)
    requires !c.hit && !Cache.Present(c) && p.memRead
    ensures var c1 := Cache.Edge(c, p);
      var c2 := Cache.Edge(c1, p);
      var c3 := Cache.Edge(c2, p);
      && !c1.hit
      && (c2.hit ==> c2.lines == RefilledTwice(c, p) && Cache.Holds(c2, p.a) && Cache.Read(c2) == p.found)
      && (!c2.hit ==> c3.hit && c3.lines == RefilledTwice(c, p) && Cache.Holds(c3, p.a) && Cache.Read(c3) == p.found)
  {
    hide Cache.TagOf, Cache.SetOf;
  }

  /** A missing load until it hits: it is served its own word. */
  lemma LoadWaits(prog: Program, y: System, q: Reg, n: nat) returns (k: nat)
    requires AlwaysSpares(prog, y, q)
    requires var z := After(prog, y, n); z.s.m.memRead && !z.cache.hit && !Cache.Present(z.cache)
    ensures TagsAfter(prog, y, k) == TagsAfter(prog, y, n)
    ensures var z, x := After(prog, y, n), After(prog, y, k);
      && x.s.m == z.s.m && x.s.mem == z.s.mem && x.cache.hit
      && Drives(x).data == ReadWord(x.s.mem, AddressOf(x.s.m.aluResult))
      && x.cache.lines == RefilledTwice(z.cache, PortOfM(z.s))
  {
    hide After, TagsAfter, AlwaysSpares, Cache.Edge, PortOfM, Cache.Present, Cache.Holds, RefilledTwice, ReadWord;
    var z := After(prog, y, n);
    PortOfMFields(z.s);
    MissTwice(z.cache, PortOfM(z.s));
    WaitingTick(prog, y, q, n);
    WaitingTick(prog, y, q, n + 1);
    k := n + 2;
    if !After(prog, y, n + 2).cache.hit {
      WaitingTick(prog, y, q, n + 2);
      k := n + 3;
    }
  }

  /** A load that hits leaves M; its successor does not name its result. */
  lemma LoadLeaves(prog: Program, y: System, q: Reg, n: nat, d: nat)
    requires AlwaysSpares(prog, y, q) && TagsAfter(prog, y, n).m == Real(d)
    requires var z := After(prog, y, n); z.s.m.memRead && z.cache.hit
    requires HistoryOf(prog, ArchOf(y.s))(d).m.rd == q
    ensures TagsAfter(prog, y, n + 1).m == Real(d + 1)
    ensures var z, x := After(prog, y, n), After(prog, y, n + 1);
      x.s.mem == z.s.mem && x.cache.lines == z.cache.lines
  {
    hide Invariant, After, TagsAfter, HistoryOf, AtReset, WellSpaced, Tick, Step, PCSrcE, LoadUseStall, Orderly;
    var h, z, t := HistoryOf(prog, ArchOf(y.s)), After(prog, y, n), TagsAfter(prog, y, n);
    var x := ShadowAlways(prog, y, q, n);
    TickStep(prog, y, n);
    Signals(z.s, t);
    SlotNumbers(t) by { IsOrderly(prog, h, x, t); }
    MemHeld(prog, z);
    assert !Names(h(d + 1), q);
    NoGapBehindLoad(prog, h, x, t);
    HitLines(prog, z);
  }

  lemma NoGapBehindLoad(prog: Program, h: History, s: State, t: Tags)
    requires Invariant(prog, h, s, t) && t.m.Real? && s.m.memRead && !Names(h(t.m.n + 1), h(t.m.n).m.rd)
    ensures t.e.Real?
  {
    StageFields(prog, h, t.m.n);
  }

  lemma HitLines(prog: Program, z: System)
    requires z.cache.hit && !z.s.m.memWrite
    ensures Tick(prog, z).cache.lines == z.cache.lines
  {
  }

  /** A taken branch leaves M: two bubbles follow, then its target. */
  lemma BranchLeaves(prog: Program, y: System, q: Reg, n: nat, d: nat)
    requires AlwaysSpares(prog, y, q) && Quiet(y.s, EMPTY_TAGS) && TagsAfter(prog, y, n).m == Real(d)
    requires var z := After(prog, y, n); !z.s.m.memRead && !z.s.m.memWrite
    requires !Straight(HistoryOf(prog, ArchOf(y.s)), d)
    ensures TagsAfter(prog, y, n + 3).m == Real(d + 1)
    ensures var z, x := After(prog, y, n), After(prog, y, n + 3);
      && x.s.mem == z.s.mem && x.cache.lines == z.cache.lines && x.cache.aTag == 0 && x.cache.aSet == 0
      && x.cache.hit == (z.cache.lines[0].valid && z.cache.lines[0].tag == 0)
  {
    hide Invariant, After, TagsAfter, HistoryOf, AlwaysSpares, Quiet;
    var x := ShadowAlways(prog, y, q, n);
    BubblesBehind(prog, HistoryOf(prog, ArchOf(y.s)), x, TagsAfter(prog, y, n));
    PassiveTick(prog, y, q, n);
    BubbleShowsZero(prog, y, q, n + 1);
    PassiveTick(prog, y, q, n + 1);
    BubbleShowsZero(prog, y, q, n + 2);
    PassiveTick(prog, y, q, n + 2);
  }

  lemma BubblesBehind(prog: Program, h: History, s: State, t: Tags)
    requires Invariant(prog, h, s, t) && t.m.Real? && !Straight(h, t.m.n)
    ensures t.e == Bubble && t.d == Bubble && t.fetch == t.m.n + 1
  {
  }

  lemma BubbleShowsZero(prog: Program, y: System, q: Reg, n: nat)
    requires AlwaysSpares(prog, y, q) && Quiet(y.s, EMPTY_TAGS) && TagsAfter(prog, y, n).m == Bubble
    ensures var z := After(prog, y, n).s; !z.m.memRead && !z.m.memWrite && AddressOf(z.m.aluResult) == 0
  {
    hide Invariant, After, TagsAfter, AtReset, HistoryOf, WellSpaced, NeverNamed, NoneLost;
    var _ := ShadowAlways(prog, y, q, n);
    QuietRun(prog, y, n);
  }

  /** A computed result moves on, and its successor enters M. */
  lemma ComputedLeaves(prog: Program, y: System, q: Reg, n: nat, d: nat)
    requires AlwaysSpares(prog, y, q)
    requires TagsAfter(prog, y, n).m == Real(d) && Computes(HistoryOf(prog, ArchOf(y.s))(d))
    ensures TagsAfter(prog, y, n + 1).m == Real(d + 1)
    ensures var z, x := After(prog, y, n), After(prog, y, n + 1);
      && x.s.mem == z.s.mem && x.cache.lines == z.cache.lines && x.cache.hit == Cache.Present(z.cache)
      && Cache.Holds(x.cache, AddressIn(HistoryOf(prog, ArchOf(y.s))(d)))
  {
    hide Invariant, After, TagsAfter, HistoryOf, AlwaysSpares, Computes, Cache.Present, Cache.Holds;
    var x := ShadowAlways(prog, y, q, n);
    NoGap(prog, HistoryOf(prog, ArchOf(y.s)), x, TagsAfter(prog, y, n));
    PassiveTick(prog, y, q, n);
  }

  /** What M holds of instruction d. */
  lemma NumberInM(prog: Program, y: System, q: Reg, n: nat, d: nat)
    requires AlwaysSpares(prog, y, q) && TagsAfter(prog, y, n).m == Real(d)
    ensures var m, k := After(prog, y, n).s.m, HistoryOf(prog, ArchOf(y.s))(d).m;
      && m.memRead == k.memRead && m.memWrite == k.memWrite
      && (k.memRead ==> m.rd == k.rd && m.funct3 == k.funct3 && AddressOf(m.aluResult) == AddressOf(k.aluResult))
    ensures Committed(TagsAfter(prog, y, n)) == d
  {
    hide Invariant, After, TagsAfter, HistoryOf, AlwaysSpares;
    var h, t := HistoryOf(prog, ArchOf(y.s)), TagsAfter(prog, y, n);
    var z := ShadowAlways(prog, y, q, n);
    AddressInM(prog, h, z, t);
    if h(d).m.memRead { LoadFields(prog, h, z, t); }
    SlotNumbers(t) by { IsOrderly(prog, h, z, t); }
  }

  /** While the instructions after d and before e, none of them an access, pass through M,
      neither the lines nor memory change. */
  lemma {:induction false} Untouched(prog: Program, y: System, q: Reg, n: nat, m: nat, d: nat, e: nat)
    requires AlwaysSpares(prog, y, q) && n <= m
    requires d <= Committed(TagsAfter(prog, y, n)) && Committed(TagsAfter(prog, y, m)) < e
    requires forall k: nat :: d <= k < e ==> NoAccessIn(HistoryOf(prog, ArchOf(y.s))(k))
    ensures After(prog, y, m).cache.lines == After(prog, y, n).cache.lines
    ensures After(prog, y, m).s.mem == After(prog, y, n).s.mem
  {
    hide After, TagsAfter, HistoryOf, AlwaysSpares, Committed, Cache.Present, Cache.Holds;
    if n < m {
      CommittedGrows(prog, y, m - 1, m);
      CommittedGrows(prog, y, n, m - 1);
      Untouched(prog, y, q, n, m - 1, d, e);
      PassiveHere(prog, y, q, m - 1, d, e);
      PassiveTick(prog, y, q, m - 1);
    }
  }

  lemma PassiveHere(prog: Program, y: System, q: Reg, n: nat, d: nat, e: nat)
    requires AlwaysSpares(prog, y, q) && d <= Committed(TagsAfter(prog, y, n)) < e
    requires forall k: nat :: d <= k < e ==> NoAccessIn(HistoryOf(prog, ArchOf(y.s))(k))
    ensures var m := After(prog, y, n).s.m; !m.memRead && !m.memWrite
  {
    hide Invariant, After, TagsAfter, HistoryOf, AlwaysSpares, Committed;
    var _ := ShadowAlways(prog, y, q, n);
    if TagsAfter(prog, y, n).m.Real? {
      var k := TagsAfter(prog, y, n).m.n;
      NumberInM(prog, y, q, n, k);
      assert NoAccessIn(HistoryOf(prog, ArchOf(y.s))(k));
    }
  }

  /** Every instruction leaves M in some cycle, and in one only. */
  lemma Leaves(prog: Program, y: System, q: Reg, k: nat) returns (n: nat)
    requires AlwaysSpares(prog, y, q)
    ensures n < 10 + 6 * (k + 1) && TagsAfter(prog, y, n).m == Real(k)
    ensures Committed(TagsAfter(prog, y, n + 1)) == k + 1
  {
    hide Invariant, After, TagsAfter, HistoryOf, Committed, AtReset, WellSpaced, NeverNamed;
    var m := 10 + 6 * (k + 1);
    var _ := ShadowAlways(prog, y, q, m);
    SystemRate(prog, y, k + 1);
    CommittedAhead(TagsAfter(prog, y, m));
    n := LeavesAt(prog, y, m, k);
    var _ := ShadowAlways(prog, y, q, n);
    TickStep(prog, y, n);
    T.CommitsFromM(After(prog, y, n).s, Drives(After(prog, y, n)), TagsAfter(prog, y, n));
  }

  lemma OneDeparture(prog: Program, y: System, q: Reg, m: nat, n: nat, k: nat)
    requires AlwaysSpares(prog, y, q) && TagsAfter(prog, y, m).m == Real(k) && TagsAfter(prog, y, n).m == Real(k)
    requires After(prog, y, m).cache.hit && After(prog, y, n).cache.hit
    ensures m == n
  {
    hide After, TagsAfter, AlwaysSpares;
    if m < n { Departed(prog, y, q, m, n, k); }
    if n < m { Departed(prog, y, q, n, m, k); }
  }

  lemma Departed(prog: Program, y: System, q: Reg, m: nat, n: nat, k: nat)
    requires AlwaysSpares(prog, y, q) && TagsAfter(prog, y, m).m == Real(k) && After(prog, y, m).cache.hit && m < n
    ensures TagsAfter(prog, y, n).m != Real(k)
  {
    hide After, TagsAfter, AlwaysSpares, AtReset, NoneLost, Invariant, HistoryOf, Committed;
    var _ := ShadowAlways(prog, y, q, m);
    NumberInM(prog, y, q, m, k);
    FrozenOrCommits(prog, y, m);
    CommittedGrows(prog, y, m + 1, n);
    if TagsAfter(prog, y, n).m == Real(k) {
      NumberInM(prog, y, q, n, k);
    }
  }
}
