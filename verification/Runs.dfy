/** Whole runs of the pipeline, from reset and under any behaviour of the cache. */
module Runs {
  import opened Words
  import opened Pipeline
  import opened Sequential
  import opened Refinement
  import CU = ControlUnit

  datatype Config = Config(s: State, t: Tags)

  const EMPTY_TAGS := Tags(0, Bubble, Bubble, Bubble, Bubble, 0)

  /** No instruction in flight; PC, registers and memory are arbitrary. */
  predicate AtReset(s: State) {
    && s.d.instr == 0 && Inert(s.e)
    && !s.m.regWrite && !s.m.memWrite && !s.m.memRead && !s.w.regWrite
  }

  predicate Empty(t: Tags) {
    t.fetch == 0 && t.retired == 0 && t.d.Bubble? && t.e.Bubble? && t.m.Bubble? && t.w.Bubble?
  }

  /** A configuration in which a run from reset starts. */
  predicate FromReset(o: Config) {
    AtReset(o.s) && Empty(o.t)
  }

  function ArchOf(s: State): Arch {
    Arch(s.pc, s.regs, s.mem)
  }

  function Butlast(cs: seq<Cached>): seq<Cached>
    requires cs != []
  {
    cs[..|cs| - 1]
  }

  function Last(cs: seq<Cached>): Cached
    requires cs != []
  {
    cs[|cs| - 1]
  }

  /** The configuration |cs| cycles after o, when the cache drives cs. */
  function Run(prog: Program, o: Config, cs: seq<Cached>): Config {
    if cs == [] then o
    else
      var p := Run(prog, o, Butlast(cs));
      Config(Step(prog, p.s, Last(cs)), NextTags(p.s, Last(cs), p.t))
  }

  /** Cycle k of the run meets the conditions. */
  predicate OkAt(prog: Program, o: Config, cs: seq<Cached>, k: nat)
    requires k < |cs|
  {
    CycleOk(Run(prog, o, cs[..k]).s, cs[k])
  }

  /** Every cycle of the run meets the conditions. */
  ghost predicate RunOk(prog: Program, o: Config, cs: seq<Cached>) {
    forall k: nat :: k < |cs| ==> OkAt(prog, o, cs, k)
  }

  // Runs in which no flush hits E while M is held; the other conditions may fail.

  predicate LosslessAt(prog: Program, o: Config, cs: seq<Cached>, k: nat)
    requires k < |cs|
  {
    NothingLost(Run(prog, o, cs[..k]).s, cs[k])
  }

  ghost predicate Lossless(prog: Program, o: Config, cs: seq<Cached>) {
    forall k: nat :: k < |cs| ==> LosslessAt(prog, o, cs, k)
  }

  lemma RunOkIsLossless(prog: Program, o: Config, cs: seq<Cached>)
    requires RunOk(prog, o, cs)
    ensures Lossless(prog, o, cs)
  {
    hide Run, ForwardsResult, SuccessorRight, DataCurrent, NothingLost;
    forall k: nat | k < |cs|
      ensures LosslessAt(prog, o, cs, k)
    {
      assert OkAt(prog, o, cs, k);
    }
  }

  lemma LosslessButlast(prog: Program, o: Config, cs: seq<Cached>)
    requires cs != [] && Lossless(prog, o, cs)
    ensures Lossless(prog, o, Butlast(cs)) && NothingLost(Run(prog, o, Butlast(cs)).s, Last(cs))
  {
    hide NothingLost, Run;
    assert LosslessAt(prog, o, cs, |cs| - 1);
    forall k: nat | k < |Butlast(cs)|
      ensures LosslessAt(prog, o, Butlast(cs), k)
    {
      assert LosslessAt(prog, o, cs, k);
      assert Butlast(cs)[..k] == cs[..k];
    }
  }

  lemma RunOkButlast(prog: Program, o: Config, cs: seq<Cached>)
    requires cs != []
    ensures RunOk(prog, o, cs) <==> RunOk(prog, o, Butlast(cs)) && CycleOk(Run(prog, o, Butlast(cs)).s, Last(cs))
  {
    hide CycleOk, Run;
    forall k: nat | k < |cs| - 1
      ensures OkAt(prog, o, cs, k) <==> OkAt(prog, o, Butlast(cs), k)
    {
      assert Butlast(cs)[..k] == cs[..k];
    }
    assert OkAt(prog, o, cs, |cs| - 1) <==> CycleOk(Run(prog, o, Butlast(cs)).s, Last(cs));
    if RunOk(prog, o, cs) {
      forall k: nat | k < |Butlast(cs)|
        ensures OkAt(prog, o, Butlast(cs), k)
      {
        assert OkAt(prog, o, cs, k);
      }
    }
  }

  /** The retirements of a run, in the order they leave W. */
  function Trace(prog: Program, o: Config, cs: seq<Cached>): seq<Retirement> {
    if cs == [] then []
    else
      var p := Run(prog, o, Butlast(cs));
      Trace(prog, o, Butlast(cs)) +
      (if p.t.w.Real? && !Frozen(p.s, Last(cs)) then [Retire(p.s.w)] else [])
  }

  /** The retirements of the first n instructions of a sequential execution. */
  function SeqTrace(h: History, n: nat): seq<Retirement> {
    if n == 0 then [] else SeqTrace(h, n - 1) + [Retire(h(n - 1).w)]
  }

  // --------------------------------------------------------------- refinement

  lemma ResetOrderly(o: Config)
    requires FromReset(o)
    ensures Orderly(o.s, o.t)
  {
  }

  lemma ResetInvariant(prog: Program, o: Config)
    requires FromReset(o)
    ensures Invariant(prog, HistoryOf(prog, ArchOf(o.s)), o.s, o.t)
  {
    hide Orderly;
    ResetOrderly(o);
    HistoryOfIsHistory(prog, ArchOf(o.s));
    AtBefore(prog, ArchOf(o.s));
    NoWrites(o.s.regs, o.s.w);
  }

  lemma {:induction false} OrderlyRun(prog: Program, o: Config, cs: seq<Cached>)
    requires Orderly(o.s, o.t) && Lossless(prog, o, cs)
    ensures var p := Run(prog, o, cs); Orderly(p.s, p.t)
  {
    hide Step, NextTags, Orderly, Lossless, NothingLost;
    if cs != [] {
      LosslessButlast(prog, o, cs);
      OrderlyRun(prog, o, Butlast(cs));
      var p := Run(prog, o, Butlast(cs));
      OrderlyIff(prog, p.s, Last(cs), p.t);
      RunLast(prog, o, cs, p);
    }
  }

  lemma {:induction false} GoneForever(prog: Program, o: Config, cs: seq<Cached>, n: nat)
    requires Gone(o.t, n)
    ensures Gone(Run(prog, o, cs).t, n)
  {
    hide Step, NextTags, Gone;
    if cs != [] {
      GoneForever(prog, o, Butlast(cs), n);
      var p := Run(prog, o, Butlast(cs));
      GoneKept(p.s, Last(cs), p.t, n);
      RunLast(prog, o, cs, p);
    }
  }

  lemma {:induction false} RunInvariant(prog: Program, h: History, o: Config, cs: seq<Cached>)
    requires Invariant(prog, h, o.s, o.t) && RunOk(prog, o, cs)
    ensures var p := Run(prog, o, cs); Invariant(prog, h, p.s, p.t)
  {
    hide Step, NextTags, Invariant, CycleOk, RunOk;
    if cs != [] {
      RunOkButlast(prog, o, cs);
      RunInvariant(prog, h, o, Butlast(cs));
      var p := Run(prog, o, Butlast(cs));
      CycleKeeps(prog, h, p.s, Last(cs), p.t);
      RunLast(prog, o, cs, p);
    }
  }

  lemma RunLast(prog: Program, o: Config, cs: seq<Cached>, p: Config)
    requires cs != [] && p == Run(prog, o, Butlast(cs))
    ensures Run(prog, o, cs) == Config(Step(prog, p.s, Last(cs)), NextTags(p.s, Last(cs), p.t))
  {
  }

  lemma ResetRunInvariant(prog: Program, o: Config, cs: seq<Cached>)
    requires FromReset(o) && RunOk(prog, o, cs)
    ensures var p := Run(prog, o, cs); Invariant(prog, HistoryOf(prog, ArchOf(o.s)), p.s, p.t)
  {
    hide Step, NextTags, Invariant;
    ResetInvariant(prog, o);
    RunInvariant(prog, HistoryOf(prog, ArchOf(o.s)), o, cs);
  }

  lemma HistoryBefore(prog: Program, a: Arch, n: nat)
    ensures HistoryOf(prog, a)(n).before == Seq(prog, a, n)
  {
    hide Seq;
    AtBefore(prog, Seq(prog, a, n));
  }

  lemma ArchHolds(prog: Program, h: History, s: State, t: Tags)
    requires Invariant(prog, h, s, t)
    ensures WriteRegister(s.regs, s.w) == h(Committed(t)).before.regs && s.mem == h(Committed(t)).before.mem
  {
  }

  /** Refinement: the register file, with W's write, and the data memory are those of
      the sequential machine after exactly the instructions that have reached W. */
  lemma Refines(prog: Program, o: Config, cs: seq<Cached>)
    requires FromReset(o) && RunOk(prog, o, cs)
    ensures var p := Run(prog, o, cs);
      var x := Seq(prog, ArchOf(o.s), Committed(p.t));
      WriteRegister(p.s.regs, p.s.w) == x.regs && p.s.mem == x.mem
  {
    hide Invariant, Run, Seq;
    ResetRunInvariant(prog, o, cs);
    var p := Run(prog, o, cs);
    ArchHolds(prog, HistoryOf(prog, ArchOf(o.s)), p.s, p.t);
    HistoryBefore(prog, ArchOf(o.s), Committed(p.t));
  }

  /** At a clock edge the register file itself is the sequential one after the
      instructions that had reached W before that edge. */
  lemma RegisterFileAtEdge(prog: Program, o: Config, cs: seq<Cached>)
    requires FromReset(o) && cs != [] && RunOk(prog, o, Butlast(cs))
    ensures var p := Run(prog, o, Butlast(cs));
      Run(prog, o, cs).s.regs == Seq(prog, ArchOf(o.s), Committed(p.t)).regs
  {
    Refines(prog, o, Butlast(cs));
  }

  /** Every write to the register file or the data memory is the write of a numbered
      instruction of the sequential execution; bubbles and wrong-path fetches make none. */
  lemma OnlySequentialWrites(prog: Program, o: Config, cs: seq<Cached>)
    requires FromReset(o) && RunOk(prog, o, cs)
    ensures var p := Run(prog, o, cs);
      var h := HistoryOf(prog, ArchOf(o.s));
      && (p.s.w.regWrite ==> p.t.w.Real? && Retire(p.s.w) == Retire(h(p.t.w.n).w))
      && (p.s.m.memWrite ==> p.t.m.Real? && p.s.m == h(p.t.m.n).m)
  {
    hide Invariant, Run, At;
    ResetRunInvariant(prog, o, cs);
    var p := Run(prog, o, cs);
    WritesHold(prog, HistoryOf(prog, ArchOf(o.s)), p.s, p.t);
  }

  lemma WritesHold(prog: Program, h: History, s: State, t: Tags)
    requires Invariant(prog, h, s, t)
    ensures s.w.regWrite ==> t.w.Real?
    ensures t.w.Real? ==> t.w.n == t.retired && Retire(s.w) == Retire(h(t.w.n).w)
    ensures s.m.memWrite ==> t.m.Real? && s.m == h(t.m.n).m
  {
  }

  lemma {:induction false} TraceFollows(prog: Program, h: History, o: Config, cs: seq<Cached>)
    requires Invariant(prog, h, o.s, o.t) && RunOk(prog, o, cs)
    ensures SeqTrace(h, o.t.retired) + Trace(prog, o, cs) == SeqTrace(h, Run(prog, o, cs).t.retired)
  {
    hide Step, NextTags, Invariant, Retire, Frozen, CycleOk, RunOk;
    if cs != [] {
      RunOkButlast(prog, o, cs);
      var p := Run(prog, o, Butlast(cs));
      TraceFollows(prog, h, o, Butlast(cs));
      RunInvariant(prog, h, o, Butlast(cs));
      RetiredCount(prog, o, cs, p);
      WritesHold(prog, h, p.s, p.t);
    }
  }

  lemma RetiredCount(prog: Program, o: Config, cs: seq<Cached>, p: Config)
    requires cs != [] && p == Run(prog, o, Butlast(cs))
    ensures Run(prog, o, cs).t.retired == p.t.retired + if p.t.w.Real? && !Frozen(p.s, Last(cs)) then 1 else 0
  {
  }

  /** In-order, exactly-once retirement: what leaves W is the sequential trace, up to
      the number of instructions retired. */
  lemma TraceIsSequential(prog: Program, o: Config, cs: seq<Cached>)
    requires FromReset(o) && RunOk(prog, o, cs)
    ensures Trace(prog, o, cs) == SeqTrace(HistoryOf(prog, ArchOf(o.s)), Run(prog, o, cs).t.retired)
  {
    hide Step, NextTags, Invariant;
    ResetInvariant(prog, o);
    TraceFollows(prog, HistoryOf(prog, ArchOf(o.s)), o, cs);
  }

  lemma {:induction false} SeqTracePrefix(h: History, m: nat, n: nat)
    requires m <= n
    ensures SeqTrace(h, m) <= SeqTrace(h, n)
  {
    if m < n {
      SeqTracePrefix(h, m, n - 1);
    }
  }

  /** Freeze insensitivity: whatever the cache does in two runs from the same state,
      one retirement trace is a prefix of the other. */
  lemma FreezeInsensitive(prog: Program, o: Config, cs: seq<Cached>, cs': seq<Cached>)
    requires FromReset(o) && RunOk(prog, o, cs) && RunOk(prog, o, cs')
    ensures Trace(prog, o, cs) <= Trace(prog, o, cs') || Trace(prog, o, cs') <= Trace(prog, o, cs)
  {
    hide Run, RunOk, Trace, SeqTrace;
    TraceIsSequential(prog, o, cs);
    TraceIsSequential(prog, o, cs');
    var n, n' := Run(prog, o, cs).t.retired, Run(prog, o, cs').t.retired;
    if n <= n' {
      SeqTracePrefix(HistoryOf(prog, ArchOf(o.s)), n, n');
    } else {
      SeqTracePrefix(HistoryOf(prog, ArchOf(o.s)), n', n);
    }
  }

  /** Runs that have committed equally many instructions agree on registers and memory,
      however their cycles differ. */
  lemma EqualCommitsAgree(prog: Program, o: Config, cs: seq<Cached>, cs': seq<Cached>)
    requires FromReset(o) && RunOk(prog, o, cs) && RunOk(prog, o, cs')
    ensures var p, p' := Run(prog, o, cs), Run(prog, o, cs');
      Committed(p.t) == Committed(p'.t) ==>
        p.s.mem == p'.s.mem && WriteRegister(p.s.regs, p.s.w) == WriteRegister(p'.s.regs, p'.s.w)
  {
    hide Run, RunOk, Seq, WriteRegister;
    Refines(prog, o, cs);
    Refines(prog, o, cs');
  }

  // ------------------------------------------- programs safe for every schedule

  predicate WritesTo(i: Insn, r: Reg) {
    i.m.regWrite && i.m.rd == r && r != 0
  }

  /** SrcA reaches the result, an address or the branch decision. */
  predicate UsesA(e: RegE) {
    e.op == CU.OP_LOAD || e.op == CU.OP_STORE || e.op == CU.OP_REG || e.op == CU.OP_IMM || e.op == CU.OP_BRANCH
  }

  /** WriteDataE does. */
  predicate UsesB(e: RegE) {
    e.op == CU.OP_STORE || e.op == CU.OP_REG || e.op == CU.OP_BRANCH
  }

  predicate Uses(e: RegE, r: Reg) {
    (UsesA(e) && e.rs1 == r) || (UsesB(e) && e.rs2 == r)
  }

  /** The next instruction does not compute with AUIPC's result. */
  predicate AuipcSpaced(h: History, n: nat) {
    h(n).e.op == CU.OP_AUIPC && h(n).m.rd != 0 ==> !Uses(h(n + 1).e, h(n).m.rd)
  }

  /** Neither of the two instructions right before a register jump writes its base; what
      lies beyond a jump or a load-use stall is far enough. */
  predicate BaseSpaced(h: History, n: nat) {
    h(n).branches && h(n).e.jump ==>
      && (n >= 1 && FallsThrough(h, n - 1) ==> !WritesTo(h(n - 1), h(n).e.rs1))
      && (n >= 2 && Adjacent(h, n - 2) && Adjacent(h, n - 1) ==> !WritesTo(h(n - 2), h(n).e.rs1))
  }

  /** A load is followed by an instruction that names its result, or by one that neither
      redirects nor is a load named in its turn. */
  predicate LoadSpaced(h: History, n: nat) {
    h(n).e.memRead && !Names(h(n + 1), h(n).m.rd) ==>
      !h(n + 1).branches && (h(n + 1).e.memRead ==> !Names(h(n + 2), h(n + 1).m.rd))
  }

  predicate Spaced(h: History, n: nat) {
    AuipcSpaced(h, n) && BaseSpaced(h, n) && LoadSpaced(h, n)
  }

  /** A property of the sequential execution alone. */
  ghost predicate WellSpaced(prog: Program, a: Arch) {
    forall n: nat :: Spaced(HistoryOf(prog, a), n)
  }

  /** Whenever the cache claims a hit for a load, its word reads as the memory's does. */
  ghost predicate Coherent(prog: Program, o: Config, cs: seq<Cached>) {
    forall k: nat :: k < |cs| ==> CoherentAt(prog, o, cs, k)
  }

  predicate CoherentAt(prog: Program, o: Config, cs: seq<Cached>, k: nat)
    requires k < |cs|
  {
    DataCurrent(Run(prog, o, cs[..k]).s, cs[k])
  }

  lemma CoherentButlast(prog: Program, o: Config, cs: seq<Cached>)
    requires cs != [] && Coherent(prog, o, cs)
    ensures Coherent(prog, o, Butlast(cs)) && DataCurrent(Run(prog, o, Butlast(cs)).s, Last(cs))
  {
    hide DataCurrent, Run;
    assert CoherentAt(prog, o, cs, |cs| - 1);
    forall k: nat | k < |Butlast(cs)|
      ensures CoherentAt(prog, o, Butlast(cs), k)
    {
      assert CoherentAt(prog, o, cs, k);
      assert Butlast(cs)[..k] == cs[..k];
    }
  }

  /** Only used operands matter to E's effect and to its redirect. */
  lemma UsedOperandsSuffice(d: RegD, rd1: Word, rd2: Word, a: Word, b: Word, a': Word, b': Word)
    requires var e := Decode(d, rd1, rd2); (UsesA(e) ==> a == a') && (UsesB(e) ==> b == b')
    ensures var e := Decode(d, rd1, rd2);
      SameEffect(Execute(e, a, b), Execute(e, a', b')) && Redirects(e, a, b) == Redirects(e, a', b')
  {
    hide Alu.FlagsOf, CU.SignExtend;
  }

  /** E's redirect decision and effect are those of its newest operands. */
  lemma SpacedOperands(prog: Program, h: History, s: State, t: Tags)
    requires Invariant(prog, h, s, t) && (t.m.Real? ==> AuipcSpaced(h, t.m.n))
    ensures ForwardsResult(s) && PCSrcE(s) == Redirects(s.e, NewestA(s), NewestB(s))
  {
    hide Decode, Execute, Redirects, Target, LoadData, WriteRegister, SrcA, WriteDataE, NewestA, NewestB, SameEffect,
         Retire, Fetch;
    if t.e.Real? {
      var i := h(t.e.n);
      UsedOperandsFresh(prog, h, s, t);
      LinkedStages(prog, h, t.e.n);
      StageFields(prog, h, t.e.n);
      UsedOperandsSuffice(i.d, i.e.rd1, i.e.rd2, SrcA(s), WriteDataE(s), NewestA(s), NewestB(s));
      ExecuteByOperands(i.e, s.e.rd1, s.e.rd2, SrcA(s), WriteDataE(s));
      ExecuteByOperands(i.e, s.e.rd1, s.e.rd2, NewestA(s), NewestB(s));
    } else {
      InertOperands(s);
    }
  }

  lemma UsedOperandsFresh(prog: Program, h: History, s: State, t: Tags)
    requires Invariant(prog, h, s, t) && t.e.Real? && (t.m.Real? ==> AuipcSpaced(h, t.m.n))
    ensures UsesA(s.e) ==> SrcA(s) == NewestA(s)
    ensures UsesB(s.e) ==> WriteDataE(s) == NewestB(s)
  {
    hide Redirects, Target, LoadData, WriteRegister, Decode, Execute, Retire, SrcA, WriteDataE, NewestA, NewestB, Fetch;
    OperandsFreshIff(prog, h, s, t);
    if t.m.Real? {
      StageFields(prog, h, t.m.n);
    }
  }

  lemma SpacedSuccessor(prog: Program, h: History, s: State, t: Tags)
    requires Invariant(prog, h, s, t) && PCSrcE(s) == Redirects(s.e, NewestA(s), NewestB(s))
    requires t.e.Real? ==> BaseSpaced(h, t.e.n)
    ensures SuccessorRight(s)
  {
    hide Redirects, LoadData, WriteRegister, Decode, Execute, Retire, PCSrcE, SrcA, WriteDataE, NewestB, SameEffect,
         Fetch;
    if PCSrcE(s) && s.e.jump {
      Signals(s, t);
      BaseUnwritten(prog, h, s, t);
    }
  }

  /** The base of a register jump in E was read after its last write. */
  lemma BaseUnwritten(prog: Program, h: History, s: State, t: Tags)
    requires Invariant(prog, h, s, t) && t.e.Real? && BaseSpaced(h, t.e.n) && s.e.jump
    requires PCSrcE(s) == Redirects(s.e, NewestA(s), NewestB(s)) && PCSrcE(s)
    ensures NewestA(s) == s.e.rd1
  {
    hide Invariant, Redirects, PCSrcE, SrcA, WriteDataE, NewestB, NewestOperand, WriteRegister, BaseSpaced;
    RedirectsAsNewest(prog, h, s, t);
    NoWriterAhead(prog, h, s, t);
    UnwrittenOperand(s, s.e.rs1, s.e.rd1);
  }

  /** A redirect by the newest operands is the sequential one. */
  lemma RedirectsAsNewest(prog: Program, h: History, s: State, t: Tags)
    requires Invariant(prog, h, s, t) && t.e.Real?
    ensures Redirects(s.e, NewestA(s), NewestB(s)) == h(t.e.n).branches
    ensures s.e.rs1 == h(t.e.n).e.rs1 && s.e.jump == h(t.e.n).e.jump
  {
    hide Redirects, NewestA, NewestB, IsHistory, Orderly, HoldsW, HoldsM, HoldsD, HoldsPC, HoldsArch, Gaps, GapsBehindW;
    var i := h(t.e.n);
    OperandsFreshIff(prog, h, s, t);
    LinkedStages(prog, h, t.e.n);
    ExecuteByOperands(i.e, s.e.rd1, s.e.rd2, i.e.rd1, i.e.rd2);
  }

  lemma UnwrittenOperand(s: State, rs: Reg, rd: Word)
    requires s.m.regWrite && s.m.rd == rs ==> rs == 0
    requires s.w.regWrite && s.w.rd == rs ==> rs == 0
    ensures NewestOperand(s, rs, rd) == rd
  {
  }

  /** Neither M nor W holds a writer of the base. */
  lemma NoWriterAhead(prog: Program, h: History, s: State, t: Tags)
    requires Invariant(prog, h, s, t) && t.e.Real? && BaseSpaced(h, t.e.n)
    requires h(t.e.n).branches && h(t.e.n).e.jump
    ensures var rs := h(t.e.n).e.rs1;
      && (s.m.regWrite && s.m.rd == rs ==> rs == 0)
      && (s.w.regWrite && s.w.rd == rs ==> rs == 0)
  {
    WriterInM(prog, h, s, t);
    WriterInW(prog, h, s, t);
    if t.m.Real? {
      NeighboursAdjacent(prog, h, s, t);
    }
  }

  lemma WriterInM(prog: Program, h: History, s: State, t: Tags)
    requires Invariant(prog, h, s, t)
    ensures s.m.regWrite ==> t.m.Real? && h(t.m.n).m.regWrite && h(t.m.n).m.rd == s.m.rd
  {
    hide IsHistory, HoldsW, HoldsE, HoldsD, HoldsPC, HoldsArch, Gaps, GapsBehindW;
  }

  lemma WriterInW(prog: Program, h: History, s: State, t: Tags)
    requires Invariant(prog, h, s, t)
    ensures s.w.regWrite && s.w.rd != 0 ==> t.w.Real? && h(t.w.n).m.regWrite && h(t.w.n).m.rd == s.w.rd
  {
    hide HoldsM, HoldsE, HoldsD, HoldsPC, HoldsArch, Gaps, GapsBehindW;
    if t.w.Real? {
      StageFields(prog, h, t.w.n);
    }
  }

  /** Behind a load in M, E redirects exactly when its instruction does. */
  lemma RedirectBehindLoad(prog: Program, h: History, s: State, t: Tags)
    requires Invariant(prog, h, s, t) && t.e.Real? && s.m.memRead
    ensures PCSrcE(s) <==> h(t.e.n).branches
  {
    hide Invariant, Redirects, SrcA, WriteDataE, NewestA, NewestB;
    IsOrderly(prog, h, s, t);
    Signals(s, t);
    LoadInM(s);
    RedirectsAsNewest(prog, h, s, t);
  }

  /** An instruction in E that goes straight on stalls the next exactly when it is a load that
      the next names. */
  lemma StallExactly(prog: Program, h: History, s: State, t: Tags)
    requires Invariant(prog, h, s, t) && t.e.Real? && !h(t.e.n).branches
    ensures LoadUseStall(s) <==> h(t.e.n).e.memRead && Names(h(t.e.n + 1), h(t.e.n).m.rd)
  {
    hide IsHistory, HoldsW, HoldsM, HoldsPC, HoldsArch, Gaps, GapsBehindW, BubblesInert, ControlsM;
    LinkedRegs(prog, h, t.e.n);
    StageFields(prog, h, t.e.n);
    StageFields(prog, h, t.e.n + 1);
  }

  /** A miss of the load in M loses nothing exactly when the load is well spaced. */
  lemma MissIff(prog: Program, h: History, s: State, c: Cached, t: Tags)
    requires Invariant(prog, h, s, t) && t.m.Real? && Frozen(s, c)
    ensures NothingLost(s, c) <==> LoadSpaced(h, t.m.n)
  {
    hide Invariant, PCSrcE, LoadUseStall;
    IsOrderly(prog, h, s, t);
    Signals(s, t);
    LoadNeighbours(prog, h, s, t);
    if t.e.Real? {
      RedirectBehindLoad(prog, h, s, t);
      if !h(t.e.n).branches {
        StallExactly(prog, h, s, t);
      }
    }
  }

  /** Behind a load in M there is a bubble exactly when its successor names its result. */
  lemma LoadNeighbours(prog: Program, h: History, s: State, t: Tags)
    requires Invariant(prog, h, s, t) && t.m.Real? && s.m.memRead
    ensures h(t.m.n).e.memRead
    ensures t.e.Bubble? <==> Names(h(t.m.n + 1), h(t.m.n).m.rd)
    ensures t.e.Real? ==> t.e.n == t.m.n + 1
  {
    hide IsHistory, HoldsW, HoldsD, HoldsPC, HoldsArch, GapsBehindW, BubblesInert;
    StageFields(prog, h, t.m.n);
    if t.e.Real? {
      NeighboursAdjacent(prog, h, s, t);
    }
  }

  lemma SpacedLoads(prog: Program, h: History, s: State, c: Cached, t: Tags)
    requires Invariant(prog, h, s, t) && (t.m.Real? ==> LoadSpaced(h, t.m.n))
    ensures NothingLost(s, c)
  {
    hide Invariant, PCSrcE, LoadUseStall, LoadSpaced;
    if Frozen(s, c) {
      IsOrderly(prog, h, s, t);
      Signals(s, t);
      MissIff(prog, h, s, c, t);
    }
  }

  /** A cycle of a well-spaced execution meets the conditions exactly when its load data are
      current. */
  lemma SpacedCycle(prog: Program, h: History, s: State, c: Cached, t: Tags)
    requires Invariant(prog, h, s, t)
    requires t.m.Real? ==> Spaced(h, t.m.n)
    requires t.e.Real? ==> Spaced(h, t.e.n)
    ensures CycleOk(s, c) <==> DataCurrent(s, c)
  {
    hide Invariant, ForwardsResult, SuccessorRight, NothingLost, DataCurrent, PCSrcE, Redirects, NewestA, NewestB,
         AuipcSpaced, BaseSpaced, LoadSpaced;
    SpacedOperands(prog, h, s, t);
    SpacedSuccessor(prog, h, s, t);
    SpacedLoads(prog, h, s, c, t);
  }

  lemma {:induction false} SpacedRunOk(prog: Program, o: Config, cs: seq<Cached>)
    requires FromReset(o) && WellSpaced(prog, ArchOf(o.s)) && Coherent(prog, o, cs)
    ensures RunOk(prog, o, cs)
  {
    hide RunOk, Coherent, Run, Step, NextTags, Invariant, WellSpaced, Spaced, CycleOk, DataCurrent;
    if cs == [] {
      NoCycles(prog, o);
    } else {
      CoherentButlast(prog, o, cs);
      SpacedRunOk(prog, o, Butlast(cs));
      ResetRunInvariant(prog, o, Butlast(cs));
      var h := HistoryOf(prog, ArchOf(o.s));
      var p := Run(prog, o, Butlast(cs));
      if p.t.m.Real? { SpacedAt(prog, ArchOf(o.s), p.t.m.n); }
      if p.t.e.Real? { SpacedAt(prog, ArchOf(o.s), p.t.e.n); }
      SpacedCycle(prog, h, p.s, Last(cs), p.t);
      RunOkButlast(prog, o, cs);
    }
  }

  lemma SpacedAt(prog: Program, a: Arch, n: nat)
    requires WellSpaced(prog, a)
    ensures Spaced(HistoryOf(prog, a), n)
  {
  }

  lemma NoCycles(prog: Program, o: Config)
    ensures Run(prog, o, []) == o && RunOk(prog, o, [])
  {
  }

  /** A program whose sequential execution is well spaced is executed correctly by
      the pipeline whenever and for however long the cache misses. */
  lemma WellSpacedRefines(prog: Program, o: Config, cs: seq<Cached>)
    requires FromReset(o) && WellSpaced(prog, ArchOf(o.s)) && Coherent(prog, o, cs)
    ensures var p := Run(prog, o, cs);
      var x := Seq(prog, ArchOf(o.s), Committed(p.t));
      WriteRegister(p.s.regs, p.s.w) == x.regs && p.s.mem == x.mem
    ensures Trace(prog, o, cs) == SeqTrace(HistoryOf(prog, ArchOf(o.s)), Run(prog, o, cs).t.retired)
  {
    SpacedRunOk(prog, o, cs);
    Refines(prog, o, cs);
    TraceIsSequential(prog, o, cs);
  }
}
