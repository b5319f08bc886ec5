/** Cycle accounting over whole runs: where every cycle goes, and how long the
    pipeline can go without retiring an instruction. Whether the instructions compute
    the right values does not matter here, only that none is lost. */
module Throughput {
  import opened Pipeline
  import opened Refinement
  import opened Runs

  function One(b: bool): nat {
    if b then 1 else 0
  }

  /** The instructions in D, E, M and W. */
  function InFlight(t: Tags): nat {
    Count(t.d) + Count(t.e) + Count(t.m) + Count(t.w)
  }

  // Over a run, the cycles in which each signal is high.

  function StallCycles(prog: Program, o: Config, cs: seq<Cached>): nat {
    if cs == [] then 0
    else StallCycles(prog, o, Butlast(cs)) + One(LoadUseStall(Run(prog, o, Butlast(cs)).s))
  }

  function RedirectCycles(prog: Program, o: Config, cs: seq<Cached>): nat {
    if cs == [] then 0
    else RedirectCycles(prog, o, Butlast(cs)) + One(PCSrcE(Run(prog, o, Butlast(cs)).s))
  }

  function FrozenCycles(prog: Program, o: Config, cs: seq<Cached>): nat {
    if cs == [] then 0
    else FrozenCycles(prog, o, Butlast(cs)) + One(Frozen(Run(prog, o, Butlast(cs)).s, Last(cs)))
  }

  /** The signals exclude one another, and the fetch number moves by one, by nothing,
      or back by one. */
  lemma FetchMoves(s: State, c: Cached, t: Tags)
    requires Orderly(s, t) && NothingLost(s, c)
    ensures NextTags(s, c, t).fetch + One(LoadUseStall(s)) + 2 * One(PCSrcE(s)) + One(Frozen(s, c)) == t.fetch + 1
  {
    hide PCSrcE, LoadUseStall, Frozen, BubblesInert;
    Signals(s, t);
  }

  lemma {:induction false} CyclesAccounted(prog: Program, o: Config, cs: seq<Cached>)
    requires Orderly(o.s, o.t) && Lossless(prog, o, cs)
    ensures Run(prog, o, cs).t.fetch + StallCycles(prog, o, cs) + 2 * RedirectCycles(prog, o, cs)
      + FrozenCycles(prog, o, cs)
      == o.t.fetch + |cs|
  {
    hide Step, NextTags, Orderly, NothingLost, Lossless, PCSrcE, LoadUseStall, Frozen;
    if cs != [] {
      var p := Run(prog, o, Butlast(cs));
      LosslessButlast(prog, o, cs);
      CyclesAccounted(prog, o, Butlast(cs));
      OrderlyRun(prog, o, Butlast(cs));
      FetchMoves(p.s, Last(cs), p.t);
      RunLast(prog, o, cs, p);
    }
  }

  /** Cycle conservation: every cycle since reset is one instruction retired or in
      flight, one load-use stall, half of a redirect's penalty of two, or frozen. */
  lemma CycleConservation(prog: Program, o: Config, cs: seq<Cached>)
    requires FromReset(o) && Lossless(prog, o, cs)
    ensures var t := Run(prog, o, cs).t;
      |cs| == t.retired + InFlight(t)
        + StallCycles(prog, o, cs) + 2 * RedirectCycles(prog, o, cs) + FrozenCycles(prog, o, cs)
  {
    hide Step, NextTags, Orderly, Lossless, PCSrcE, LoadUseStall, Frozen, Run;
    ResetOrderly(o);
    CyclesAccounted(prog, o, cs);
    OrderlyRun(prog, o, cs);
    var p := Run(prog, o, cs);
    FetchCounts(p.s, p.t);
  }

  lemma FetchCounts(s: State, t: Tags)
    requires Orderly(s, t)
    ensures t.fetch == t.retired + InFlight(t)
  {
  }

  // ----------------------------------------------------------------- progress

  /** A load-use stall never lasts two unfrozen cycles in a row. */
  lemma StallOnce(prog: Program, s: State, c: Cached)
    requires LoadUseStall(s)
    ensures !LoadUseStall(Step(prog, s, c))
  {
  }

  /** Two adjacent empty stages are always followed by a full one. */
  predicate Dense(t: Tags) {
    && (t.e.Bubble? && t.d.Bubble? && t.fetch > 0 ==> t.m.Real?)
    && (t.m.Bubble? && t.e.Bubble? && Committed(t) > 0 ==> t.w.Real? && t.d.Real?)
    && (t.w.Bubble? && t.m.Bubble? && t.retired > 0 ==> t.e.Real?)
  }

  lemma DenseKept(s: State, c: Cached, t: Tags)
    requires Orderly(s, t) && NothingLost(s, c) && Dense(t)
    ensures Dense(NextTags(s, c, t))
  {
    hide PCSrcE, LoadUseStall, Frozen, BubblesInert;
    Signals(s, t);
  }

  /** How many unfrozen cycles away the next retirement is, once the pipeline has filled. */
  function Distance(t: Tags): nat {
    if t.w.Real? then 1 else if t.m.Real? then 2 else 3
  }

  /** Every unfrozen cycle retires an instruction or brings the next one closer. */
  lemma CloserEachCycle(s: State, c: Cached, t: Tags)
    requires InOrder(t) && Dense(t) && Committed(t) > 0
    ensures var t' := NextTags(s, c, t);
      && Committed(t') > 0
      && (Frozen(s, c) ==> t'.retired == t.retired && Distance(t') == Distance(t))
      && (!Frozen(s, c) ==> if t.w.Real? then t'.retired == t.retired + 1 && Distance(t') <= 3
                            else t'.retired == t.retired && Distance(t') < Distance(t))
  {
  }

  lemma {:induction false} DenseRun(prog: Program, o: Config, cs: seq<Cached>)
    requires Orderly(o.s, o.t) && Dense(o.t) && Lossless(prog, o, cs)
    ensures Dense(Run(prog, o, cs).t)
  {
    hide Step, NextTags, Orderly, NothingLost, Lossless;
    if cs != [] {
      var p := Run(prog, o, Butlast(cs));
      LosslessButlast(prog, o, cs);
      DenseRun(prog, o, Butlast(cs));
      OrderlyRun(prog, o, Butlast(cs));
      DenseKept(p.s, Last(cs), p.t);
      RunLast(prog, o, cs, p);
    }
  }

  /** The cycles of cs in which the pipeline is not frozen, when run after cs0. */
  function UnfrozenAfter(prog: Program, o: Config, cs0: seq<Cached>, cs: seq<Cached>): nat {
    if cs == [] then 0
    else UnfrozenAfter(prog, o, cs0, Butlast(cs)) + One(!Frozen(Run(prog, o, cs0 + Butlast(cs)).s, Last(cs)))
  }

  lemma {:induction false} ProgressFrom(prog: Program, o: Config, cs0: seq<Cached>, cs: seq<Cached>)
    requires Orderly(o.s, o.t) && Dense(o.t) && Lossless(prog, o, cs0 + cs)
    requires Committed(Run(prog, o, cs0).t) > 0
    ensures var t, t' := Run(prog, o, cs0).t, Run(prog, o, cs0 + cs).t;
      && Committed(t') > 0
      && UnfrozenAfter(prog, o, cs0, cs) + 3 * t.retired + Distance(t') <= 3 * t'.retired + Distance(t)
  {
    hide Step, NextTags, Orderly, NothingLost, Lossless, Frozen, Distance;
    if cs == [] {
      assert cs0 + cs == cs0;
    } else {
      assert Butlast(cs0 + cs) == cs0 + Butlast(cs);
      var p := Run(prog, o, cs0 + Butlast(cs));
      LosslessButlast(prog, o, cs0 + cs);
      ProgressFrom(prog, o, cs0, Butlast(cs));
      OrderlyRun(prog, o, cs0 + Butlast(cs));
      DenseRun(prog, o, cs0 + Butlast(cs));
      StepProgress(p.s, Last(cs), p.t);
      RunLast(prog, o, cs0 + cs, p);
    }
  }

  lemma StepProgress(s: State, c: Cached, t: Tags)
    requires Orderly(s, t) && Dense(t) && Committed(t) > 0
    ensures var t' := NextTags(s, c, t);
      && Committed(t') > 0
      && One(!Frozen(s, c)) + 3 * t.retired + Distance(t') <= 3 * t'.retired + Distance(t)
  {
    CloserEachCycle(s, c, t);
  }

  /** Once an instruction has reached W, a stretch of a run has at most three unfrozen cycles
      for every instruction it retires, and two more. */
  lemma UnfrozenBound(prog: Program, o: Config, cs0: seq<Cached>, cs: seq<Cached>)
    requires FromReset(o) && Lossless(prog, o, cs0 + cs) && Committed(Run(prog, o, cs0).t) > 0
    ensures UnfrozenAfter(prog, o, cs0, cs) + 3 * Run(prog, o, cs0).t.retired
      <= 3 * Run(prog, o, cs0 + cs).t.retired + 2
  {
    hide Run, Orderly;
    ResetOrderly(o);
    ProgressFrom(prog, o, cs0, cs);
  }

  /** Bounded progress: once an instruction has reached W, any stretch of a run with
      3k unfrozen cycles retires at least k instructions. */
  lemma BoundedProgress(prog: Program, o: Config, cs0: seq<Cached>, cs: seq<Cached>, k: nat)
    requires FromReset(o) && Lossless(prog, o, cs0 + cs)
    requires Committed(Run(prog, o, cs0).t) > 0
    requires UnfrozenAfter(prog, o, cs0, cs) >= 3 * k
    ensures Run(prog, o, cs0 + cs).t.retired >= Run(prog, o, cs0).t.retired + k
  {
    hide Run, Lossless, FromReset, UnfrozenAfter, Committed;
    UnfrozenBound(prog, o, cs0, cs);
  }

  /** An instruction enters W only from M, one at a time. */
  lemma CommitsFromM(s: State, c: Cached, t: Tags)
    requires InOrder(t)
    ensures var t' := NextTags(s, c, t);
      && Committed(t) <= Committed(t') <= Committed(t) + 1
      && (Committed(t') > Committed(t) ==> t.m == Real(Committed(t)))
  {
    hide PCSrcE, LoadUseStall, Frozen;
  }
}
