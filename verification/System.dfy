/** The pipeline together with its cache, as wired in rtl/risc_v.sv. */
module System {
  import opened Words
  import opened DataMemory
  import opened Pipeline
  import opened Sequential
  import opened Refinement
  import opened Runs
  import T = Throughput
  import Cache

  datatype System = System(s: State, cache: Cache.CacheState)

  /** The cache's outputs in a cycle. */
  function Drives(y: System): Cached {
    Cached(y.cache.hit, Cache.Read(y.cache))
  }

  /** The cache's inputs in a cycle: stage M's, and the data memory's word. */
  function PortOfM(s: State): Cache.Port {
    var a := AddressOf(s.m.aluResult);
    Cache.Port(WriteEnables(s.m.funct3, s.m.memWrite), s.m.memRead, a, s.m.writeData, ReadWord(s.mem, a))
  }

  function Tick(prog: Program, y: System): System {
    System(Step(prog, y.s, Drives(y)), Cache.Edge(y.cache, PortOfM(y.s)))
  }

  function After(prog: Program, y: System, n: nat): System {
    if n == 0 then y else Tick(prog, After(prog, y, n - 1))
  }

  /** The machine when it is switched on: everything zero, every line invalid. */
  function PowerOn(start: Word, image: Memory): System {
    System(State(start, seq(32, _ => 0), image, CLEAR_D, CLEAR_E,
                 RegM(false, 0, false, false, 0, 0, 0, 0, 0), RegW(false, 0, 0, 0, 0, 0, 0)),
           Cache.CacheState(Cache.COLD, false, 0, 0))
  }

  /** The instruction numbers after n cycles. */
  function TagsAfter(prog: Program, y: System, n: nat): Tags {
    if n == 0 then EMPTY_TAGS
    else
      var z := After(prog, y, n - 1);
      NextTags(z.s, Drives(z), TagsAfter(prog, y, n - 1))
  }

  // ------------------------------------------------------------- correctness

  predicate CorrectAt(prog: Program, y: System, k: nat) {
    var z := After(prog, y, k);
    CycleOk(z.s, Drives(z))
  }

  /** The first n cycles meet the conditions, under what the cache itself drives. */
  ghost predicate Correct(prog: Program, y: System, n: nat) {
    forall k: nat :: k < n ==> CorrectAt(prog, y, k)
  }

  predicate NothingLostAt(prog: Program, y: System, k: nat) {
    var z := After(prog, y, k);
    NothingLost(z.s, Drives(z))
  }

  ghost predicate NoneLost(prog: Program, y: System, n: nat) {
    forall k: nat :: k < n ==> NothingLostAt(prog, y, k)
  }

  lemma TickStep(prog: Program, y: System, n: nat)
    ensures var z, t := After(prog, y, n), TagsAfter(prog, y, n);
      && After(prog, y, n + 1) == Tick(prog, z)
      && After(prog, y, n + 1).s == Step(prog, z.s, Drives(z))
      && TagsAfter(prog, y, n + 1) == NextTags(z.s, Drives(z), t)
  {
    hide Step, NextTags, Cache.Edge;
  }

  lemma StartTags(prog: Program, y: System)
    ensures After(prog, y, 0) == y
    ensures var t := TagsAfter(prog, y, 0); Empty(t) && Committed(t) == 0 && t.m.Bubble?
  {
  }

  lemma StartInvariant(prog: Program, y: System)
    requires AtReset(y.s)
    ensures After(prog, y, 0) == y && Orderly(y.s, TagsAfter(prog, y, 0))
    ensures Invariant(prog, HistoryOf(prog, ArchOf(y.s)), y.s, TagsAfter(prog, y, 0))
  {
    hide Invariant, Orderly, AtReset;
    var o := Config(y.s, TagsAfter(prog, y, 0));
    ResetOrderly(o);
    ResetInvariant(prog, o);
  }

  lemma CorrectSoFar(prog: Program, y: System, n: nat)
    requires n > 0 && Correct(prog, y, n - 1)
    requires var z := After(prog, y, n - 1); CycleOk(z.s, Drives(z))
    ensures Correct(prog, y, n)
  {
    hide CycleOk, After;
  }

  lemma {:induction false} SystemInvariant(prog: Program, y: System, n: nat)
    requires AtReset(y.s) && Correct(prog, y, n)
    ensures Invariant(prog, HistoryOf(prog, ArchOf(y.s)), After(prog, y, n).s, TagsAfter(prog, y, n))
  {
    hide Invariant, CycleOk, Tick, Step, NextTags, AtReset, HistoryOf, After, TagsAfter;
    if n == 0 {
      StartInvariant(prog, y);
    } else {
      SystemInvariant(prog, y, n - 1);
      TickStep(prog, y, n - 1);
      var z := After(prog, y, n - 1);
      assert CorrectAt(prog, y, n - 1);
      CycleKeeps(prog, HistoryOf(prog, ArchOf(y.s)), z.s, Drives(z), TagsAfter(prog, y, n - 1));
    }
  }

  lemma {:induction false} SystemOrderly(prog: Program, y: System, n: nat)
    requires AtReset(y.s) && NoneLost(prog, y, n)
    ensures Orderly(After(prog, y, n).s, TagsAfter(prog, y, n))
  {
    hide Orderly, NothingLost, Tick, Step, NextTags, AtReset, After, TagsAfter;
    if n == 0 {
      StartInvariant(prog, y);
    } else {
      SystemOrderly(prog, y, n - 1);
      TickStep(prog, y, n - 1);
      var z := After(prog, y, n - 1);
      assert NothingLostAt(prog, y, n - 1);
      OrderlyIff(prog, z.s, Drives(z), TagsAfter(prog, y, n - 1));
    }
  }

  /** The complete machine refines the sequential one on every run that meets the
      conditions under its own cache's behaviour. */
  lemma SystemRefines(prog: Program, y: System, n: nat)
    requires AtReset(y.s) && Correct(prog, y, n)
    ensures var s := After(prog, y, n).s;
      var x := Seq(prog, ArchOf(y.s), Committed(TagsAfter(prog, y, n)));
      WriteRegister(s.regs, s.w) == x.regs && s.mem == x.mem
  {
    hide After, TagsAfter, Seq, Correct, Invariant, AtReset;
    SystemInvariant(prog, y, n);
    InvariantRefines(prog, ArchOf(y.s), After(prog, y, n).s, TagsAfter(prog, y, n));
  }

  lemma InvariantRefines(prog: Program, a: Arch, s: State, t: Tags)
    requires Invariant(prog, HistoryOf(prog, a), s, t)
    ensures var x := Seq(prog, a, Committed(t)); WriteRegister(s.regs, s.w) == x.regs && s.mem == x.mem
  {
    hide Invariant, Seq;
    ArchHolds(prog, HistoryOf(prog, a), s, t);
    HistoryBefore(prog, a, Committed(t));
  }

  // ------------------------------------------------------ M as the cache's client

  /** In every cycle M presents to the cache, and leaves in the data memory, what a client's
      access does: a store of its size at its address, a load there, or an idle edge. */
  lemma PortIsAccess(prog: Program, y: System)
    requires !(y.s.m.memRead && y.s.m.memWrite)
    ensures var s, z := y.s, Tick(prog, y);
      var a := AddressOf(s.m.aluResult);
      && (s.m.memWrite ==>
            var x := Cache.Store(a, s.m.writeData, s.m.funct3);
            PortOfM(s) == Cache.PortOf(x, s.mem) && z.cache == Cache.Edge(y.cache, Cache.PortOf(x, s.mem))
            && z.s.mem == Cache.Effect(x, s.mem))
      && (s.m.memRead ==>
            var x := Cache.Load(a);
            z.cache == Cache.Edge(y.cache, Cache.PortOf(x, s.mem)) && z.s.mem == Cache.Effect(x, s.mem)
            && FoundData(s, Drives(y)) == Cache.Found(y.cache, x, s.mem))
      && (!s.m.memRead && !s.m.memWrite ==>
            z.cache == Cache.Edge(y.cache, Cache.IdlePort(a, s.mem)) && z.s.mem == s.mem)
  {
    hide WriteLanes, ReadWord, NextPC, NextD, NextE, NextM, NextW;
    if !y.s.m.memWrite {
      NoStore(y.s.m, y.s.mem);
      NoLanesEdge(y.cache, PortOfM(y.s));
    }
  }

  /** Without lanes the data to be stored does not matter. */
  lemma NoLanesEdge(c: Cache.CacheState, p: Cache.Port)
    requires p.we == Cache.NO_LANES
    ensures Cache.Edge(c, p) == Cache.Edge(c, p.(wd := 0))
  {
  }

  // ------------------------------------------------------------- as a run

  /** What the cache drives over the first n cycles. */
  function Schedule(prog: Program, y: System, n: nat): (cs: seq<Cached>)
    ensures |cs| == n
  {
    if n == 0 then [] else Schedule(prog, y, n - 1) + [Drives(After(prog, y, n - 1))]
  }

  /** The run of the pipeline alone starts with nothing in flight. */
  function Origin(y: System): Config {
    Config(y.s, EMPTY_TAGS)
  }

  lemma ScheduleButlast(prog: Program, y: System, n: nat)
    requires n > 0
    ensures Butlast(Schedule(prog, y, n)) == Schedule(prog, y, n - 1)
    ensures Last(Schedule(prog, y, n)) == Drives(After(prog, y, n - 1))
  {
  }

  lemma {:induction false} SchedulePrefix(prog: Program, y: System, k: nat, n: nat)
    requires k <= n
    ensures Schedule(prog, y, n)[..k] == Schedule(prog, y, k)
    ensures k < n ==> Schedule(prog, y, n)[k] == Drives(After(prog, y, k))
  {
    hide After, Drives;
    if k < n {
      SchedulePrefix(prog, y, k, n - 1);
    }
  }

  /** The machine with its cache is a run of the pipeline under what the cache drives. */
  lemma {:induction false} SystemIsRun(prog: Program, y: System, n: nat)
    ensures Run(prog, Origin(y), Schedule(prog, y, n)) == Config(After(prog, y, n).s, TagsAfter(prog, y, n))
  {
    hide Step, NextTags, Cache.Edge;
    if n > 0 {
      SystemIsRun(prog, y, n - 1);
      ScheduleButlast(prog, y, n);
      RunLast(prog, Origin(y), Schedule(prog, y, n), Run(prog, Origin(y), Schedule(prog, y, n - 1)));
    }
  }

  lemma NoneLostIsLossless(prog: Program, y: System, n: nat)
    requires NoneLost(prog, y, n)
    ensures Lossless(prog, Origin(y), Schedule(prog, y, n))
  {
    hide Run, After, NothingLost, Schedule, TagsAfter, Drives;
    forall k: nat | k < n
      ensures LosslessAt(prog, Origin(y), Schedule(prog, y, n), k)
    {
      SchedulePrefix(prog, y, k, n);
      SystemIsRun(prog, y, k);
      assert NothingLostAt(prog, y, k);
    }
  }

  // ------------------------------------------------------------ stalls end

  /** While frozen, M and the data memory do not change. */
  lemma FrozenHolds(prog: Program, y: System)
    requires Frozen(y.s, Drives(y)) && !y.s.m.memWrite
    ensures var s' := Tick(prog, y).s; s'.m == y.s.m && s'.mem == y.s.mem
  {
    NoStore(y.s.m, y.s.mem);
  }

  predicate FrozenAt(prog: Program, y: System, k: nat) {
    var z := After(prog, y, k);
    Frozen(z.s, Drives(z))
  }

  /** The load in M leaves it after exactly k frozen cycles, unchanged; when k is two
      or more, it leaves with the data memory's word. */
  predicate ReleasedAfter(prog: Program, y: System, k: nat) {
    var z := After(prog, y, k);
    && (forall j: nat :: j < k ==> FrozenAt(prog, y, j))
    && !FrozenAt(prog, y, k)
    && z.s.m == y.s.m && z.s.mem == y.s.mem
    && (k >= 2 ==> FoundData(z.s, Drives(z)) == ReadWord(y.s.mem, AddressOf(y.s.m.aluResult)))
  }

  /** From any cache contents, a load in M is released after at most three frozen cycles. */
  lemma FreezeEnds(prog: Program, y: System)
    requires y.s.m.memRead && !y.s.m.memWrite
    ensures exists k: nat :: k <= 3 && ReleasedAfter(prog, y, k)
  {
    hide Tick, PortOfM, Cache.Edge, Cache.Wait, Cache.Read, ReadWord, After;
    var y0, y1, y2, y3 := After(prog, y, 0), After(prog, y, 1), After(prog, y, 2), After(prog, y, 3);
    AfterUpTo3(prog, y);
    var k: nat :=
      if !FrozenAt(prog, y, 0) then 0 else if !FrozenAt(prog, y, 1) then 1 else if !FrozenAt(prog, y, 2) then 2 else 3;
    if k >= 1 { HeldPort(prog, y0); }
    if k >= 2 { HeldPort(prog, y1); }
    if k >= 3 { HeldPort(prog, y2); }
    WaitUpTo3(y.cache, PortOfM(y.s));
    PortOfMFields(y.s);
    Cache.MissStallEnds(y.cache, PortOfM(y.s));
    assert ReleasedAfter(prog, y, k);
  }

  lemma PortOfMFields(s: State)
    ensures PortOfM(s).memRead == s.m.memRead && PortOfM(s).a == AddressOf(s.m.aluResult)
    ensures PortOfM(s).found == ReadWord(s.mem, AddressOf(s.m.aluResult))
    ensures !s.m.memWrite ==> PortOfM(s).we == Cache.NO_LANES
  {
  }

  lemma AfterUpTo3(prog: Program, y: System)
    ensures After(prog, y, 0) == y
    ensures After(prog, y, 1) == Tick(prog, y)
    ensures After(prog, y, 2) == Tick(prog, Tick(prog, y))
    ensures After(prog, y, 3) == Tick(prog, Tick(prog, Tick(prog, y)))
  {
    hide Tick;
    assert After(prog, y, 1) == Tick(prog, After(prog, y, 0));
    assert After(prog, y, 2) == Tick(prog, After(prog, y, 1));
  }

  lemma WaitUpTo3(c: Cache.CacheState, p: Cache.Port)
    ensures Cache.Wait(c, p, 0) == c
    ensures Cache.Wait(c, p, 1) == Cache.Edge(c, p)
    ensures Cache.Wait(c, p, 2) == Cache.Edge(Cache.Edge(c, p), p)
    ensures Cache.Wait(c, p, 3) == Cache.Edge(Cache.Edge(Cache.Edge(c, p), p), p)
  {
    hide Cache.Edge;
    assert Cache.Wait(c, p, 1) == Cache.Edge(Cache.Wait(c, p, 0), p);
    assert Cache.Wait(c, p, 2) == Cache.Edge(Cache.Wait(c, p, 1), p);
  }

  lemma HeldPort(prog: Program, y: System)
    requires Frozen(y.s, Drives(y)) && !y.s.m.memWrite
    ensures PortOfM(Tick(prog, y).s) == PortOfM(y.s) && Tick(prog, y).s.m == y.s.m && Tick(prog, y).s.mem == y.s.mem
    ensures Tick(prog, y).cache == Cache.Edge(y.cache, PortOfM(y.s))
  {
    FrozenHolds(prog, y);
  }

  // -------------------------------------------------------------- throughput

  lemma {:induction false} AfterAfter(prog: Program, y: System, m: nat, n: nat)
    ensures After(prog, After(prog, y, m), n) == After(prog, y, m + n)
  {
    hide Tick;
    if n > 0 {
      AfterAfter(prog, y, m, n - 1);
    }
  }

  /** The unfrozen cycles among n cycles starting with cycle i. */
  function Unfrozen(prog: Program, y: System, i: nat, n: nat): nat {
    if n == 0 then 0 else Unfrozen(prog, y, i, n - 1) + T.One(!FrozenAt(prog, y, i + n - 1))
  }

  lemma {:induction false} UnfrozenSplit(prog: Program, y: System, i: nat, m: nat, n: nat)
    ensures Unfrozen(prog, y, i, m + n) == Unfrozen(prog, y, i, m) + Unfrozen(prog, y, i + m, n)
  {
    hide FrozenAt;
    if n > 0 {
      UnfrozenSplit(prog, y, i, m, n - 1);
    }
  }

  /** Of any four consecutive cycles, one is not frozen. */
  lemma OneOfFour(prog: Program, y: System, i: nat)
    requires AtReset(y.s) && NoneLost(prog, y, i)
    ensures Unfrozen(prog, y, i, 4) >= 1
  {
    hide After, TagsAfter, Orderly, ReleasedAfter, NoneLost, AtReset;
    var z := After(prog, y, i);
    SystemOrderly(prog, y, i);
    Signals(z.s, TagsAfter(prog, y, i));
    var k: nat := 0;
    if z.s.m.memRead {
      FreezeEnds(prog, z);
      k :| k <= 3 && ReleasedAfter(prog, z, k);
      ReleasedUnfrozen(prog, z, k);
    }
    AfterAfter(prog, y, i, k);
    assert !FrozenAt(prog, y, i + k);
    UnfrozenSplit(prog, y, i, k, 4 - k);
    UnfrozenSplit(prog, y, i + k, 1, 3 - k);
    assert Unfrozen(prog, y, i + k, 1) == Unfrozen(prog, y, i + k, 0) + 1;
  }

  lemma ReleasedUnfrozen(prog: Program, z: System, k: nat)
    requires ReleasedAfter(prog, z, k)
    ensures !FrozenAt(prog, z, k)
  {
  }

  lemma CorrectNoneLost(prog: Program, y: System, n: nat)
    requires Correct(prog, y, n)
    ensures NoneLost(prog, y, n)
  {
    hide After, ForwardsResult, SuccessorRight, DataCurrent, NothingLost;
    forall k: nat | k < n
      ensures NothingLostAt(prog, y, k)
    {
      assert CorrectAt(prog, y, k);
    }
  }

  lemma NoneLostPrefix(prog: Program, y: System, m: nat, n: nat)
    requires m <= n && NoneLost(prog, y, n)
    ensures NoneLost(prog, y, m)
  {
  }

  /** Each instruction that reaches W was frozen in M for at most three cycles; m is the
      cycle in which the one in M now came there, or first could. */
  lemma {:induction false} FrozenBound(prog: Program, y: System, i: nat, n: nat) returns (m: nat)
    requires AtReset(y.s) && NoneLost(prog, y, i + n)
    ensures i <= m <= i + n <= m + 3 && forall j: nat :: m <= j < i + n ==> FrozenAt(prog, y, j)
    ensures m < i + n ==> TagsAfter(prog, y, i + n).m.Real?
    ensures n + 3 * Committed(TagsAfter(prog, y, i))
      <= Unfrozen(prog, y, i, n) + 3 * Committed(TagsAfter(prog, y, i + n)) + (i + n - m)
  {
    hide AtReset, NoneLost, After, TagsAfter, FrozenAt, Committed;
    if n == 0 {
      m := i;
    } else {
      var k := i + n - 1;
      NoneLostPrefix(prog, y, k, i + n);
      m := FrozenBound(prog, y, i, n - 1);
      FrozenOrCommits(prog, y, k);
      if !FrozenAt(prog, y, k) {
        m := i + n;
      } else {
        NoneLostPrefix(prog, y, m, i + n);
        ThreeAtMost(prog, y, m, i + n - m);
      }
    }
  }

  /** A frozen cycle keeps a real instruction in M; any other lets it commit. */
  lemma FrozenOrCommits(prog: Program, y: System, k: nat)
    requires AtReset(y.s) && NoneLost(prog, y, k)
    ensures Committed(TagsAfter(prog, y, k)) <= Committed(TagsAfter(prog, y, k + 1))
    ensures FrozenAt(prog, y, k) ==> TagsAfter(prog, y, k + 1).m.Real?
    ensures !FrozenAt(prog, y, k) && TagsAfter(prog, y, k).m.Real? ==>
      Committed(TagsAfter(prog, y, k + 1)) == Committed(TagsAfter(prog, y, k)) + 1
  {
    hide AtReset, NoneLost, After, TagsAfter, Orderly, PCSrcE, LoadUseStall;
    SystemOrderly(prog, y, k);
    TickStep(prog, y, k);
    Signals(After(prog, y, k).s, TagsAfter(prog, y, k));
  }

  /** No four cycles in a row are frozen. */
  lemma ThreeAtMost(prog: Program, y: System, m: nat, n: nat)
    requires AtReset(y.s) && NoneLost(prog, y, m) && n > 0
    requires forall j: nat :: m <= j < m + n ==> FrozenAt(prog, y, j)
    ensures n <= 3
  {
    hide AtReset, NoneLost, After, TagsAfter, Orderly, ReleasedAfter;
    SystemOrderly(prog, y, m);
    var z := After(prog, y, m);
    Signals(z.s, TagsAfter(prog, y, m));
    assert FrozenAt(prog, y, m);
    FreezeEnds(prog, z);
    var k: nat :| k <= 3 && ReleasedAfter(prog, z, k);
    ReleasedUnfrozen(prog, z, k);
    AfterAfter(prog, y, m, k);
    assert !FrozenAt(prog, y, m + k);
  }

  /** What the cache drives in the n cycles from cycle i. */
  function Later(prog: Program, y: System, i: nat, n: nat): (cs: seq<Cached>)
    ensures |cs| == n
  {
    if n == 0 then [] else Later(prog, y, i, n - 1) + [Drives(After(prog, y, i + n - 1))]
  }

  lemma {:induction false} ScheduleSplit(prog: Program, y: System, i: nat, n: nat)
    ensures Schedule(prog, y, i + n) == Schedule(prog, y, i) + Later(prog, y, i, n)
  {
    hide After, Drives;
    if n > 0 {
      ScheduleSplit(prog, y, i, n - 1);
    }
  }

  lemma LaterButlast(prog: Program, y: System, i: nat, n: nat)
    requires n > 0
    ensures Butlast(Later(prog, y, i, n)) == Later(prog, y, i, n - 1)
    ensures Last(Later(prog, y, i, n)) == Drives(After(prog, y, i + n - 1))
  {
  }

  lemma {:induction false} SameUnfrozen(prog: Program, y: System, i: nat, n: nat)
    ensures T.UnfrozenAfter(prog, Origin(y), Schedule(prog, y, i), Later(prog, y, i, n)) == Unfrozen(prog, y, i, n)
  {
    hide After, TagsAfter, Run, Drives, Frozen, Schedule, Later, Origin, T.One;
    if n > 0 {
      SameUnfrozen(prog, y, i, n - 1);
      LaterButlast(prog, y, i, n);
      ScheduleSplit(prog, y, i, n - 1);
      SystemIsRun(prog, y, i + n - 1);
    }
  }

  lemma UnfrozenBound(prog: Program, y: System, i: nat, n: nat)
    requires AtReset(y.s) && NoneLost(prog, y, i + n) && Committed(TagsAfter(prog, y, i)) > 0
    ensures Unfrozen(prog, y, i, n) + 3 * TagsAfter(prog, y, i).retired <= 3 * TagsAfter(prog, y, i + n).retired + 2
  {
    hide Run, NoneLost, After, TagsAfter, Unfrozen, Schedule, Later, Committed, AtReset;
    ScheduleSplit(prog, y, i, n);
    SameUnfrozen(prog, y, i, n);
    SystemIsRun(prog, y, i);
    SystemIsRun(prog, y, i + n);
    NoneLostIsLossless(prog, y, i + n);
    T.UnfrozenBound(prog, Origin(y), Schedule(prog, y, i), Later(prog, y, i, n));
  }

  /** Liveness of the complete machine: once an instruction has reached W, any 6k + 3 further
      cycles retire at least k instructions, whatever the cache held at reset and whether or
      not its data are right: three cycles to bring each to W, three to free it from M. */
  lemma SystemProgress(prog: Program, y: System, i: nat, k: nat)
    requires AtReset(y.s) && NoneLost(prog, y, i + 6 * k + 3)
    requires Committed(TagsAfter(prog, y, i)) > 0
    ensures TagsAfter(prog, y, i + 6 * k + 3).retired >= TagsAfter(prog, y, i).retired + k
  {
    hide NoneLost, After, TagsAfter, Unfrozen, Committed, AtReset, FrozenAt;
    var n := 6 * k + 3;
    assert i + n == i + 6 * k + 3;
    var m := FrozenBound(prog, y, i, n);
    UnfrozenBound(prog, y, i, n);
    CommittedAhead(TagsAfter(prog, y, i));
    CommittedAhead(TagsAfter(prog, y, i + n));
  }

  lemma CommittedAhead(t: Tags)
    ensures t.retired <= Committed(t) <= t.retired + 1
  {
  }

  lemma {:induction false} CommittedGrows(prog: Program, y: System, m: nat, n: nat)
    requires m <= n
    ensures Committed(TagsAfter(prog, y, m)) <= Committed(TagsAfter(prog, y, n))
    ensures n == m + 1 ==> Committed(TagsAfter(prog, y, n)) <= Committed(TagsAfter(prog, y, m)) + 1
  {
    hide Tick, PCSrcE, LoadUseStall, Frozen;
    if m < n {
      CommittedGrows(prog, y, m, n - 1);
    }
  }

  /** The first three cycles bring instruction 0 to M. */
  lemma FirstInM(prog: Program, y: System)
    requires AtReset(y.s) && NoneLost(prog, y, 3)
    ensures TagsAfter(prog, y, 3).m == Real(0)
  {
    hide After, Orderly, PCSrcE, LoadUseStall, Drives, AtReset, NoneLost;
    NoneLostPrefix(prog, y, 2, 3);
    SystemOrderly(prog, y, 2);
    SecondInE(prog, y);
    Idles(After(prog, y, 2).s, TagsAfter(prog, y, 2));
    EarlyBubbles(prog, y, 2);
  }

  lemma SecondInE(prog: Program, y: System)
    requires AtReset(y.s) && NoneLost(prog, y, 3)
    ensures TagsAfter(prog, y, 2).e == Real(0)
  {
    hide After, Orderly, PCSrcE, LoadUseStall, Drives, AtReset, NoneLost;
    NoneLostPrefix(prog, y, 0, 3);
    NoneLostPrefix(prog, y, 1, 3);
    SystemOrderly(prog, y, 0);
    SystemOrderly(prog, y, 1);
    Idles(After(prog, y, 0).s, TagsAfter(prog, y, 0));
    Idles(After(prog, y, 1).s, TagsAfter(prog, y, 1));
    assert TagsAfter(prog, y, 1).d == Real(0);
  }

  lemma Idles(s: State, t: Tags)
    requires Orderly(s, t)
    ensures t.e.Bubble? ==> !PCSrcE(s) && !LoadUseStall(s)
    ensures t.m.Bubble? ==> !s.m.memRead
  {
    Signals(s, t);
  }

  /** Within seven cycles of reset an instruction reaches W. */
  lemma FirstCommits(prog: Program, y: System)
    requires AtReset(y.s) && NoneLost(prog, y, 7)
    ensures Committed(TagsAfter(prog, y, 7)) > 0
  {
    hide After, AtReset, NoneLost, FrozenAt, TagsAfter;
    NoneLostPrefix(prog, y, 3, 7);
    FirstInM(prog, y);
    OneOfFour(prog, y, 3);
    FreezeOrCommit(prog, y, 3);
    FreezeOrCommit(prog, y, 4);
    FreezeOrCommit(prog, y, 5);
    FreezeOrCommit(prog, y, 6);
    UnfrozenSplit(prog, y, 3, 1, 3);
    UnfrozenSplit(prog, y, 4, 1, 2);
    UnfrozenSplit(prog, y, 5, 1, 1);
  }

  lemma FreezeOrCommit(prog: Program, y: System, k: nat)
    requires Committed(TagsAfter(prog, y, k)) > 0 || TagsAfter(prog, y, k).m.Real?
    ensures Committed(TagsAfter(prog, y, k + 1)) > 0 || TagsAfter(prog, y, k + 1).m.Real?
    ensures Unfrozen(prog, y, k, 1) > 0 ==> Committed(TagsAfter(prog, y, k + 1)) > 0
    ensures Committed(TagsAfter(prog, y, k)) > 0 ==> Committed(TagsAfter(prog, y, k + 1)) > 0
  {
    hide After, PCSrcE, LoadUseStall;
    TickStep(prog, y, k);
    assert Unfrozen(prog, y, k, 1) == Unfrozen(prog, y, k, 0) + T.One(!FrozenAt(prog, y, k));
  }

  /** From reset, 10 + 6k cycles retire at least k instructions. */
  lemma SystemRate(prog: Program, y: System, k: nat)
    requires AtReset(y.s) && NoneLost(prog, y, 10 + 6 * k)
    ensures TagsAfter(prog, y, 10 + 6 * k).retired >= k
  {
    hide After, TagsAfter, AtReset, NoneLost, Committed;
    NoneLostPrefix(prog, y, 7, 10 + 6 * k);
    FirstCommits(prog, y);
    SystemProgress(prog, y, 7, k);
  }

  // ------------------------------------------------------------ what a hit serves

  /** With coherent lines, a load that hits a valid line is served its own data exactly
      when the line the cache has registered, whatever address that is, reads the same. */
  lemma HitServesIff(y: System)
    requires y.s.m.memRead && y.cache.hit && y.s.m.rd != 0
    requires y.cache.lines[y.cache.aSet].valid && Cache.Coherent(y.cache.lines, y.s.mem)
    ensures var b := Cache.LineAddress(y.cache.lines[y.cache.aSet].tag, y.cache.aSet);
      var a := AddressOf(y.s.m.aluResult);
      && (DataCurrent(y.s, Drives(y)) <==>
          LoadDecode(ReadWord(y.s.mem, b), y.s.m.funct3) == LoadDecode(ReadWord(y.s.mem, a), y.s.m.funct3))
      && (y.s.m.funct3 == 2 ==> (DataCurrent(y.s, Drives(y)) <==> ReadWord(y.s.mem, b) == ReadWord(y.s.mem, a)))
  {
    hide ReadWord, Cache.LineAddress;
    assert Cache.LineCoherent(y.cache.lines, y.cache.aSet, y.s.mem);
  }

  /** A hit outlives the load it served: in the next cycle the cache drives the same word
      again, whatever M then holds. */
  lemma HitPersists(prog: Program, y: System)
    requires y.s.m.memRead && !y.s.m.memWrite && y.cache.hit && Cache.Present(y.cache)
    requires Cache.Holds(y.cache, AddressOf(y.s.m.aluResult))
    ensures var z := Tick(prog, y);
      z.cache.hit && Cache.Present(z.cache) && Drives(z) == Drives(y) && FoundData(z.s, Drives(z)) == Drives(y).data
  {
    hide Step, ReadWord;
  }

  // ------------------------------------------------------------- empty stages

  /** Empty stages present address 0, as long as x0 is 0. */
  predicate Quiet(s: State, t: Tags) {
    && s.regs[0] == 0
    && (t.e.Bubble? ==> s.e.rd1 == 0 && s.e.rd2 == 0 && s.e.aluControl == 0 && !s.e.aluSrc)
    && (t.m.Bubble? ==> s.m.aluResult == 0)
  }

  lemma QuietKept(prog: Program, s: State, c: Cached, t: Tags)
    requires Orderly(s, t) && Quiet(s, t)
    ensures Quiet(Step(prog, s, c), NextTags(s, c, t))
  {
    hide PCSrcE, StoreData, LoadDecode, Target, Fetch, Result;
    if t.e.Bubble? { QuietExecute(s); }
    if t.d.Bubble? { QuietDecode(s, WriteRegister(s.regs, s.w)); }
  }

  lemma QuietExecute(s: State)
    requires Inert(s.e) && s.e.rd1 == 0 && s.e.rd2 == 0 && s.e.aluControl == 0 && !s.e.aluSrc
    ensures Execute(s.e, SrcA(s), WriteDataE(s)).aluResult == 0
  {
  }

  lemma QuietDecode(s: State, regs: Registers)
    requires s.d.instr == 0 && regs[0] == 0
    ensures var e := Decode(s.d, regs[0], regs[0]);
      e.rd1 == 0 && e.rd2 == 0 && e.aluControl == 0 && !e.aluSrc && e.rs1 == 0 && e.rs2 == 0
  {
  }

  lemma {:induction false} QuietRun(prog: Program, y: System, n: nat)
    requires AtReset(y.s) && Quiet(y.s, EMPTY_TAGS) && NoneLost(prog, y, n)
    ensures Quiet(After(prog, y, n).s, TagsAfter(prog, y, n))
  {
    hide Quiet, Tick, Step, NextTags, Orderly, AtReset, NothingLostAt;
    if n > 0 {
      NoneLostPrefix(prog, y, n - 1, n);
      QuietRun(prog, y, n - 1);
      SystemOrderly(prog, y, n - 1);
      TickStep(prog, y, n - 1);
      var z := After(prog, y, n - 1);
      QuietKept(prog, z.s, Drives(z), TagsAfter(prog, y, n - 1));
    }
  }

  lemma PowerOnFacts(start: Word, image: Memory)
    ensures var y := PowerOn(start, image);
      && AtReset(y.s) && Quiet(y.s, EMPTY_TAGS) && y.s.pc == start && y.s.mem == image && y.s.regs[0] == 0
      && y.cache == Cache.CacheState(Cache.COLD, false, 0, 0)
  {
  }

  lemma IdleTick(prog: Program, z: System, t: Tags)
    requires Orderly(z.s, t) && Quiet(z.s, t) && t.m == Bubble
    requires z.cache == Cache.CacheState(Cache.COLD, false, 0, 0)
    ensures Tick(prog, z).cache == z.cache
  {
    hide Step, ReadWord;
  }

  /** The first load finds the cache as it was switched on. */
  lemma ColdStart(prog: Program, y: System, start: Word, image: Memory, n: nat)
    requires y == PowerOn(start, image) && NoneLost(prog, y, n) && n <= 3
    ensures After(prog, y, n).cache == Cache.CacheState(Cache.COLD, false, 0, 0)
  {
    hide Tick, TagsAfter, Orderly, Quiet, PowerOn, AtReset, NothingLostAt;
    PowerOnFacts(start, image);
    if n > 0 {
      NoneLostPrefix(prog, y, n - 1, n);
      ColdStart(prog, y, start, image, n - 1);
      SystemOrderly(prog, y, n - 1);
      QuietRun(prog, y, n - 1);
      EarlyBubbles(prog, y, n - 1);
      IdleTick(prog, After(prog, y, n - 1), TagsAfter(prog, y, n - 1));
    }
  }

  lemma EarlyBubbles(prog: Program, y: System, n: nat)
    requires n <= 2
    ensures TagsAfter(prog, y, n).m == Bubble && (n <= 1 ==> TagsAfter(prog, y, n).e == Bubble)
  {
    hide Tick, After, Drives;
  }

  /** A frozen cycle of the complete machine leaves everything but the cache. */
  lemma FrozenTick(prog: Program, h: History, z: System, t: Tags)
    requires Invariant(prog, h, z.s, t) && Frozen(z.s, Drives(z)) && NothingLost(z.s, Drives(z))
    ensures CycleOk(z.s, Drives(z))
    ensures Tick(prog, z).s == z.s.(regs := WriteRegister(z.s.regs, z.s.w))
    ensures NextTags(z.s, Drives(z), t) == t && Invariant(prog, h, Tick(prog, z).s, t)
    ensures PortOfM(Tick(prog, z).s) == PortOfM(z.s) && Tick(prog, z).cache == Cache.Edge(z.cache, PortOfM(z.s))
    ensures PCSrcE(Tick(prog, z).s) == PCSrcE(z.s) && LoadUseStall(Tick(prog, z).s) == LoadUseStall(z.s)
  {
    hide Invariant, CycleOk, Step, NextTags, Redirects, Cache.Edge, WriteRegister, ReadWord, Drives;
    FrozenCycle(prog, h, z.s, Drives(z), t);
  }
}
