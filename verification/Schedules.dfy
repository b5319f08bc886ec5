/** Which programs the pipeline executes correctly whatever the cache does: the spacing of
    loads is not only sufficient but necessary. */
module Schedules {
  import opened DataMemory
  import opened Pipeline
  import opened Sequential
  import opened Refinement
  import opened Runs
  import opened Throughput

  /** The spacing of AUIPC and of jump bases, which does not involve the cache. */
  ghost predicate ValuesSpaced(prog: Program, a: Arch) {
    forall n: nat :: ValueSpaced(HistoryOf(prog, a), n)
  }

  predicate ValueSpaced(h: History, n: nat) {
    AuipcSpaced(h, n) && BaseSpaced(h, n)
  }

  ghost predicate LoadsSpaced(prog: Program, a: Arch) {
    forall n: nat :: LoadSpaced(HistoryOf(prog, a), n)
  }

  /** Every schedule of truthful hits and misses is executed correctly. */
  ghost predicate AlwaysOk(prog: Program, o: Config) {
    forall cs: seq<Cached> :: Coherent(prog, o, cs) ==> RunOk(prog, o, cs)
  }

  // ------------------------------------------------------- a cache that always hits

  function Hit(s: State): Cached {
    Cached(true, ReadWord(s.mem, AddressOf(s.m.aluResult)))
  }

  function Hits(prog: Program, o: Config, n: nat): (cs: seq<Cached>)
    ensures |cs| == n
  {
    if n == 0 then [] else Hits(prog, o, n - 1) + [Hit(Run(prog, o, Hits(prog, o, n - 1)).s)]
  }

  lemma HitsLast(prog: Program, o: Config, n: nat)
    ensures Butlast(Hits(prog, o, n + 1)) == Hits(prog, o, n)
    ensures var p := Run(prog, o, Hits(prog, o, n));
      && Last(Hits(prog, o, n + 1)) == Hit(p.s)
      && Run(prog, o, Hits(prog, o, n + 1)) == Config(Step(prog, p.s, Hit(p.s)), NextTags(p.s, Hit(p.s), p.t))
  {
    hide Step, NextTags, Hit, Run;
    RunLast(prog, o, Hits(prog, o, n + 1), Run(prog, o, Hits(prog, o, n)));
  }

  lemma HitCycle(prog: Program, h: History, s: State, t: Tags)
    requires Invariant(prog, h, s, t)
    requires (t.m.Real? ==> ValueSpaced(h, t.m.n)) && (t.e.Real? ==> ValueSpaced(h, t.e.n))
    ensures CycleOk(s, Hit(s)) && !Frozen(s, Hit(s))
  {
    hide Invariant, ForwardsResult, SuccessorRight, PCSrcE, LoadUseStall, AuipcSpaced, BaseSpaced, Redirects, NewestA,
         NewestB, ReadWord, LoadDecode;
    SpacedOperands(prog, h, s, t);
    SpacedSuccessor(prog, h, s, t);
  }

  lemma ValueAt(prog: Program, a: Arch, n: nat)
    requires ValuesSpaced(prog, a)
    ensures ValueSpaced(HistoryOf(prog, a), n)
  {
  }

  lemma HitTick(prog: Program, a: Arch, s: State, t: Tags)
    requires ValuesSpaced(prog, a) && Invariant(prog, HistoryOf(prog, a), s, t)
    ensures CycleOk(s, Hit(s)) && !Frozen(s, Hit(s))
  {
    hide Invariant, CycleOk, HistoryOf, ValuesSpaced, ValueSpaced, Hit, Frozen;
    forall n: nat
      ensures ValueSpaced(HistoryOf(prog, a), n)
    {
      ValueAt(prog, a, n);
    }
    HitCycle(prog, HistoryOf(prog, a), s, t);
  }

  lemma {:induction false} HitsOk(prog: Program, o: Config, n: nat)
    requires FromReset(o) && ValuesSpaced(prog, ArchOf(o.s))
    ensures RunOk(prog, o, Hits(prog, o, n))
  {
    hide Invariant, CycleOk, HistoryOf, ValuesSpaced, Run, Hit, RunOk, Hits, FromReset, Frozen;
    if n == 0 {
      NoHits(prog, o, n);
      NoCycles(prog, o);
    } else {
      HitsOk(prog, o, n - 1);
      HitsLast(prog, o, n - 1);
      ResetRunInvariant(prog, o, Hits(prog, o, n - 1));
      var p := Run(prog, o, Hits(prog, o, n - 1));
      HitTick(prog, ArchOf(o.s), p.s, p.t);
      RunOkButlast(prog, o, Hits(prog, o, n));
    }
  }

  lemma NoHits(prog: Program, o: Config, n: nat)
    requires n == 0
    ensures Hits(prog, o, n) == []
  {
  }

  lemma RunOkIsCoherent(prog: Program, o: Config, cs: seq<Cached>)
    requires RunOk(prog, o, cs)
    ensures Coherent(prog, o, cs)
  {
    hide Run, ForwardsResult, SuccessorRight, DataCurrent, NothingLost;
    forall k: nat | k < |cs|
      ensures CoherentAt(prog, o, cs, k)
    {
      assert OkAt(prog, o, cs, k);
    }
  }

  // --------------------------------------------------------------- it gets anywhere

  function HitTags(prog: Program, o: Config, n: nat): Tags {
    Run(prog, o, Hits(prog, o, n)).t
  }

  lemma HitsOrderly(prog: Program, o: Config, n: nat)
    requires FromReset(o) && ValuesSpaced(prog, ArchOf(o.s))
    ensures var p := Run(prog, o, Hits(prog, o, n));
      Orderly(p.s, p.t) && Dense(p.t) && !Frozen(p.s, Hit(p.s))
      && HitTags(prog, o, n + 1) == NextTags(p.s, Hit(p.s), p.t)
  {
    hide Invariant, CycleOk, HistoryOf, ValuesSpaced, Run, Hit, RunOk, Lossless, Hits, Frozen, Orderly, Dense, AtReset;
    var cs := Hits(prog, o, n);
    HitsOk(prog, o, n);
    HitsLast(prog, o, n);
    ResetRunInvariant(prog, o, cs);
    var p := Run(prog, o, cs);
    HitTick(prog, ArchOf(o.s), p.s, p.t);
    IsOrderly(prog, HistoryOf(prog, ArchOf(o.s)), p.s, p.t);
    RunOkIsLossless(prog, o, cs);
    ResetOrderly(o);
    EmptyDense(o.t);
    DenseRun(prog, o, cs);
  }

  lemma EmptyDense(t: Tags)
    requires Empty(t)
    ensures Dense(t)
  {
    assert Committed(t) == 0;
  }

  /** One unfrozen cycle from order: what is in E moves to M, and an idle E lets D move. */
  lemma Filling(s: State, c: Cached, t: Tags)
    requires Orderly(s, t) && !Frozen(s, c)
    ensures var t' := NextTags(s, c, t);
      && t'.m == t.e && t'.w == t.m
      && (t.e.Bubble? ==> t'.e == t.d && t'.d.Real?)
  {
    hide PCSrcE, LoadUseStall, Frozen;
    Signals(s, t);
  }

  /** After four cycles an instruction has reached W. */
  lemma HitsFill(prog: Program, o: Config, n: nat)
    requires FromReset(o) && ValuesSpaced(prog, ArchOf(o.s)) && n == 4
    ensures Committed(HitTags(prog, o, n)) > 0
  {
    hide ValuesSpaced, Run, Hit, Hits, Frozen, Orderly, Dense, AtReset, NextTags;
    NoHits(prog, o, n - 4);
    NoCycles(prog, o);
    HitsStep(prog, o, n - 4);
    HitsStep(prog, o, n - 3);
    HitsStep(prog, o, n - 2);
    HitsStep(prog, o, n - 1);
  }

  lemma HitsStep(prog: Program, o: Config, n: nat)
    requires FromReset(o) && ValuesSpaced(prog, ArchOf(o.s))
    ensures var t, t' := HitTags(prog, o, n), HitTags(prog, o, n + 1);
      && t'.m == t.e && t'.w == t.m && (t.e.Bubble? ==> t'.e == t.d && t'.d.Real?)
  {
    hide ValuesSpaced, Run, Hit, Hits, Frozen, Orderly, Dense, AtReset, NextTags;
    HitsOrderly(prog, o, n);
    var p := Run(prog, o, Hits(prog, o, n));
    Filling(p.s, Hit(p.s), p.t);
  }

  lemma {:induction false} HitsProgress(prog: Program, o: Config, n: nat)
    requires FromReset(o) && ValuesSpaced(prog, ArchOf(o.s)) && n >= 4
    ensures Committed(HitTags(prog, o, n)) > 0
    ensures n + Distance(HitTags(prog, o, n)) <= 3 * HitTags(prog, o, n).retired + 7
  {
    hide ValuesSpaced, Run, Hit, Hits, Frozen, Orderly, Dense, FromReset, NextTags, Committed, HitTags;
    if n == 4 {
      HitsFill(prog, o, n);
    } else {
      HitsProgress(prog, o, n - 1);
      HitsOrderly(prog, o, n - 1);
      var p := Run(prog, o, Hits(prog, o, n - 1));
      assert HitTags(prog, o, n - 1) == p.t by { TagsOfHits(prog, o, n - 1); }
      StepProgress(p.s, Hit(p.s), p.t);
    }
  }

  lemma TagsOfHits(prog: Program, o: Config, n: nat)
    ensures HitTags(prog, o, n) == Run(prog, o, Hits(prog, o, n)).t
  {
  }

  /** The cycle, within the first m, in which instruction k is in M. */
  lemma {:induction false} HitsReach(prog: Program, o: Config, m: nat, k: nat) returns (n: nat)
    requires FromReset(o) && ValuesSpaced(prog, ArchOf(o.s)) && Committed(HitTags(prog, o, m)) > k
    ensures HitTags(prog, o, n).m == Real(k)
  {
    hide ValuesSpaced, Run, Hit, Hits, Frozen, Dense, NextTags, Committed, AtReset;
    if m == 0 {
      NothingCommitted(prog, o, m);
    } else {
      HitsOrderly(prog, o, m - 1);
      var p := Run(prog, o, Hits(prog, o, m - 1));
      CommitsFromM(p.s, Hit(p.s), p.t);
      if Committed(HitTags(prog, o, m - 1)) > k {
        n := HitsReach(prog, o, m - 1, k);
      } else {
        n := m - 1;
      }
    }
  }

  lemma NothingCommitted(prog: Program, o: Config, n: nat)
    requires FromReset(o) && n == 0
    ensures Committed(HitTags(prog, o, n)) == 0
  {
    NoHits(prog, o, n);
    NoCycles(prog, o);
  }

  // ------------------------------------------------------------------ necessity

  /** The load that is not well spaced misses, after nothing but hits. */
  lemma BadMiss(prog: Program, o: Config, k: nat) returns (cs: seq<Cached>)
    requires FromReset(o) && ValuesSpaced(prog, ArchOf(o.s)) && !LoadSpaced(HistoryOf(prog, ArchOf(o.s)), k)
    ensures Coherent(prog, o, cs) && !RunOk(prog, o, cs)
  {
    hide ValuesSpaced, Run, Hits, Coherent, RunOk, FromReset, HistoryOf, Invariant, Committed, CycleOk, Distance,
         LoadSpaced, HitTags;
    HitsProgress(prog, o, 3 * k + 10);
    RetiredAreCommitted(HitTags(prog, o, 3 * k + 10));
    var n := HitsReach(prog, o, 3 * k + 10, k);
    TagsOfHits(prog, o, n);
    var h, hits := HistoryOf(prog, ArchOf(o.s)), Hits(prog, o, n);
    var p := Run(prog, o, hits);
    HitsOk(prog, o, n);
    ResetRunInvariant(prog, o, hits);
    MissLoses(prog, h, p.s, p.t, k);
    RunOkIsCoherent(prog, o, hits);
    cs := hits + [Cached(false, 0)];
    assert Butlast(cs) == hits && Last(cs) == Cached(false, 0);
    RunOkButlast(prog, o, cs);
    CoherentMiss(prog, o, cs);
  }

  lemma RetiredAreCommitted(t: Tags)
    ensures t.retired <= Committed(t)
    ensures Distance(t) >= 1
  {
  }

  lemma MissLoses(prog: Program, h: History, s: State, t: Tags, k: nat)
    requires Invariant(prog, h, s, t) && t.m == Real(k) && !LoadSpaced(h, k)
    ensures !CycleOk(s, Cached(false, 0))
  {
    hide Invariant, PCSrcE, LoadUseStall, ForwardsResult, SuccessorRight, DataCurrent;
    LoadStillInM(prog, h, s, t);
    MissIff(prog, h, s, Cached(false, 0), t);
  }

  lemma LoadStillInM(prog: Program, h: History, s: State, t: Tags)
    requires Invariant(prog, h, s, t) && t.m.Real?
    ensures s.m.memRead == h(t.m.n).e.memRead
  {
    hide IsHistory, HoldsW, HoldsE, HoldsD, HoldsPC, HoldsArch, Gaps, GapsBehindW;
    StageFields(prog, h, t.m.n);
  }

  lemma CoherentMiss(prog: Program, o: Config, cs: seq<Cached>)
    requires cs != [] && Coherent(prog, o, Butlast(cs)) && !Last(cs).hit
    ensures Coherent(prog, o, cs)
  {
    hide Run;
    forall k: nat | k < |cs|
      ensures CoherentAt(prog, o, cs, k)
    {
      if k < |cs| - 1 {
        assert CoherentAt(prog, o, Butlast(cs), k);
        assert Butlast(cs)[..k] == cs[..k];
      }
    }
  }

  lemma SpacedBothWays(prog: Program, a: Arch)
    ensures WellSpaced(prog, a) <==> ValuesSpaced(prog, a) && LoadsSpaced(prog, a)
  {
    hide HistoryOf, AuipcSpaced, BaseSpaced, LoadSpaced;
    var h := HistoryOf(prog, a);
    if WellSpaced(prog, a) {
      forall n: nat
        ensures ValueSpaced(h, n) && LoadSpaced(h, n)
      {
        assert Spaced(h, n);
      }
    }
    if ValuesSpaced(prog, a) && LoadsSpaced(prog, a) {
      forall n: nat
        ensures Spaced(h, n)
      {
        assert ValueSpaced(h, n) && LoadSpaced(h, n);
      }
    }
  }

  /** Given the spacing of AUIPC and of jump bases, the pipeline executes a program correctly
      under every truthful schedule exactly when its loads are well spaced. */
  lemma AlwaysOkIff(prog: Program, o: Config)
    requires FromReset(o) && ValuesSpaced(prog, ArchOf(o.s))
    ensures AlwaysOk(prog, o) <==> LoadsSpaced(prog, ArchOf(o.s))
  {
    hide ValuesSpaced, Run, Coherent, RunOk, FromReset, HistoryOf, WellSpaced, LoadSpaced;
    var a := ArchOf(o.s);
    SpacedBothWays(prog, a);
    if LoadsSpaced(prog, a) {
      forall cs: seq<Cached> | Coherent(prog, o, cs)
        ensures RunOk(prog, o, cs)
      {
        SpacedRunOk(prog, o, cs);
      }
    } else {
      var k: nat :| !LoadSpaced(HistoryOf(prog, a), k);
      var cs := BadMiss(prog, o, k);
    }
  }
}
