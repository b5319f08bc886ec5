/** A register that no instruction of an execution names: whatever its loads bring into it,
    the complete machine gets everything else right. */
module Unread {
  import opened Words
  import opened DataMemory
  import opened Pipeline
  import opened Sequential
  import opened Refinement
  import opened Runs
  import opened System

  /** Equal but for register q, and for what W is about to write there. */
  predicate Like(s: State, z: State, q: Reg) {
    && s == z.(regs := s.regs, w := s.w)
    && s.w == z.w.(readData := s.w.readData)
    && (s.w.regWrite && s.w.rd != 0 && s.w.rd != q ==> Result(s.w) == Result(z.w))
    && SameBut(s.regs, z.regs, q)
  }

  predicate SameBut(x: Registers, y: Registers, q: Reg) {
    forall r: Reg :: r != q ==> x[r] == y[r]
  }

  /** No instruction of the execution names q. */
  ghost predicate NeverNamed(h: History, q: Reg) {
    q != 0 && forall n: nat :: !Names(h(n), q)
  }

  /** Hits are truthful, but for what loads bring into q. */
  predicate TrueBut(s: State, c: Cached, q: Reg) {
    DataCurrent(s, c) || s.m.rd == q
  }

  predicate TrueButAt(prog: Program, o: Config, cs: seq<Cached>, q: Reg, k: nat)
    requires k < |cs|
  {
    TrueBut(Run(prog, o, cs[..k]).s, cs[k], q)
  }

  ghost predicate CoherentBut(prog: Program, o: Config, cs: seq<Cached>, q: Reg) {
    forall k: nat :: k < |cs| ==> TrueButAt(prog, o, cs, q, k)
  }

  /** A well-spaced execution that never names q. */
  ghost predicate Apart(prog: Program, a: Arch, q: Reg) {
    WellSpaced(prog, a) && NeverNamed(HistoryOf(prog, a), q)
  }

  // -------------------------------------------------------------------- one cycle

  lemma LikeOperand(s: State, z: State, q: Reg, rs: Reg, rd: Word)
    requires Like(s, z, q) && rs != q
    ensures Operand(s, rs, rd) == Operand(z, rs, rd) && NewestOperand(s, rs, rd) == NewestOperand(z, rs, rd)
  {
  }

  /** E does the same in both, and the conditions on it are the same. */
  lemma LikeSignals(s: State, z: State, q: Reg)
    requires Like(s, z, q) && s.e.rs1 != q && s.e.rs2 != q
    ensures SrcA(s) == SrcA(z) && WriteDataE(s) == WriteDataE(z)
    ensures PCSrcE(s) == PCSrcE(z) && LoadUseStall(s) == LoadUseStall(z)
    ensures ForwardsResult(s) == ForwardsResult(z) && SuccessorRight(s) == SuccessorRight(z)
  {
    hide Redirects, Execute, Target, SameEffect, Operand, NewestOperand;
    LikeOperand(s, z, q, s.e.rs1, s.e.rd1);
    LikeOperand(s, z, q, s.e.rs2, s.e.rd2);
  }

  lemma LikeWrite(s: State, z: State, q: Reg)
    requires Like(s, z, q)
    ensures SameBut(WriteRegister(s.regs, s.w), WriteRegister(z.regs, z.w), q)
  {
  }

  /** What reaches W agrees, unless it goes to q. */
  lemma LikeWriteback(s: State, z: State, q: Reg, c: Cached, b: Cached)
    requires Like(s, z, q) && c.hit == b.hit && !Frozen(z, b)
    requires z.m.regWrite && z.m.resultSrc == 1 ==> z.m.memRead
    requires (DataCurrent(s, c) && DataCurrent(z, b)) || z.m.rd == q
    ensures var w, v := NextW(s, c), NextW(z, b);
      w == v.(readData := w.readData) && (w.regWrite && w.rd != 0 && w.rd != q ==> Result(w) == Result(v))
  {
    hide LoadDecode, ReadWord;
  }

  lemma LikeDecode(s: State, z: State, q: Reg, c: Cached, b: Cached, x: Registers, y: Registers)
    requires Like(s, z, q) && c.hit == b.hit && SameBut(x, y, q)
    requires PCSrcE(s) == PCSrcE(z) && LoadUseStall(s) == LoadUseStall(z)
    requires NextE(z, b, y).rs1 != q && NextE(z, b, y).rs2 != q
    ensures NextE(s, c, x) == NextE(z, b, y)
  {
    hide PCSrcE, LoadUseStall;
  }

  lemma LikeStep(prog: Program, s: State, z: State, q: Reg, c: Cached, b: Cached, t: Tags)
    requires Like(s, z, q) && c.hit == b.hit && s.e.rs1 != q && s.e.rs2 != q
    requires Step(prog, z, b).e.rs1 != q && Step(prog, z, b).e.rs2 != q
    requires z.m.regWrite && z.m.resultSrc == 1 ==> z.m.memRead
    requires (DataCurrent(s, c) && DataCurrent(z, b)) || z.m.rd == q
    ensures Like(Step(prog, s, c), Step(prog, z, b), q) && NextTags(s, c, t) == NextTags(z, b, t)
  {
    hide PCSrcE, LoadUseStall, WriteRegister, NextE, Execute, SrcA, WriteDataE, StoreData, Target, Result,
         DataCurrent, SameBut, NextW, ForwardsResult, SuccessorRight;
    LikeSignals(s, z, q);
    LikeWrite(s, z, q);
    LikeDecode(s, z, q, c, b, WriteRegister(s.regs, s.w), WriteRegister(z.regs, z.w));
    if Frozen(z, b) {
      HeldW(s, c);
      HeldW(z, b);
    } else {
      LikeWriteback(s, z, q, c, b);
    }
  }

  lemma HeldW(s: State, c: Cached)
    requires Frozen(s, c)
    ensures NextW(s, c) == s.w
  {
  }

  // ------------------------------------------------------------------ whole runs

  /** Hit or miss as given, with the memory's own word. */
  function Truly(hit: bool, s: State): Cached {
    Cached(hit, ReadWord(s.mem, AddressOf(s.m.aluResult)))
  }

  /** The pipeline as it would be had its loads brought the memory's words, in the same cycles. */
  function Mended(prog: Program, o: Config, cs: seq<Cached>): State {
    if cs == [] then o.s
    else
      var z := Mended(prog, o, Butlast(cs));
      Step(prog, z, Truly(Last(cs).hit, z))
  }

  lemma UnnamedInE(prog: Program, h: History, z: State, t: Tags, q: Reg)
    requires Invariant(prog, h, z, t) && NeverNamed(h, q)
    ensures z.e.rs1 != q && z.e.rs2 != q
    ensures z.m.regWrite && z.m.resultSrc == 1 ==> z.m.memRead
  {
    hide IsHistory, HoldsW, HoldsM, HoldsD, HoldsPC, HoldsArch, Gaps, GapsBehindW;
    if t.e.Real? {
      assert !Names(h(t.e.n), q);
    }
  }

  lemma TrulyCurrent(hit: bool, s: State)
    ensures DataCurrent(s, Truly(hit, s)) && Truly(hit, s).hit == hit
  {
  }

  /** One cycle of a pipeline that is like the mended one: it meets the conditions exactly when
      its load data are current, loses nothing, and stays alike if they are or go to q. */
  lemma MendedTick(prog: Program, a: Arch, s: State, z: State, q: Reg, c: Cached, t: Tags)
    requires Apart(prog, a, q) && Invariant(prog, HistoryOf(prog, a), z, t) && Like(s, z, q)
    ensures (CycleOk(s, c) <==> DataCurrent(s, c)) && NothingLost(s, c)
    ensures var b := Truly(c.hit, z);
      && Invariant(prog, HistoryOf(prog, a), Step(prog, z, b), NextTags(z, b, t))
      && (TrueBut(s, c, q) ==>
            Like(Step(prog, s, c), Step(prog, z, b), q) && NextTags(s, c, t) == NextTags(z, b, t))
  {
    hide Invariant, CycleOk, HistoryOf, WellSpaced, Spaced, DataCurrent, Step, NextTags, NeverNamed, Truly,
         ForwardsResult, SuccessorRight, NothingLost, PCSrcE, LoadUseStall;
    var h, b := HistoryOf(prog, a), Truly(c.hit, z);
    forall k: nat
      ensures Spaced(h, k)
    {
      SpacedAt(prog, a, k);
    }
    TrulyCurrent(c.hit, z);
    SpacedCycle(prog, h, z, b, t);
    CycleKeeps(prog, h, z, b, t);
    UnnamedInE(prog, h, z, t, q);
    UnnamedInE(prog, h, Step(prog, z, b), NextTags(z, b, t), q);
    SameConditions(s, z, q, c, b);
    if TrueBut(s, c, q) {
      LikeStep(prog, s, z, q, c, b, t);
    }
  }

  lemma SameConditions(s: State, z: State, q: Reg, c: Cached, b: Cached)
    requires Like(s, z, q) && z.e.rs1 != q && z.e.rs2 != q && c.hit == b.hit && CycleOk(z, b)
    ensures (CycleOk(s, c) <==> DataCurrent(s, c)) && NothingLost(s, c)
  {
    hide ForwardsResult, SuccessorRight, DataCurrent, PCSrcE, LoadUseStall;
    LikeSignals(s, z, q);
  }

  lemma LikeItself(s: State, q: Reg)
    ensures Like(s, s, q)
  {
  }

  lemma TrueButlast(prog: Program, o: Config, cs: seq<Cached>, q: Reg)
    requires cs != [] && CoherentBut(prog, o, cs, q)
    ensures CoherentBut(prog, o, Butlast(cs), q) && TrueBut(Run(prog, o, Butlast(cs)).s, Last(cs), q)
  {
    hide TrueBut, Run;
    assert TrueButAt(prog, o, cs, q, |cs| - 1);
    forall k: nat | k < |Butlast(cs)|
      ensures TrueButAt(prog, o, Butlast(cs), q, k)
    {
      assert TrueButAt(prog, o, cs, q, k);
      assert Butlast(cs)[..k] == cs[..k];
    }
  }

  lemma {:induction false} MendedRun(prog: Program, o: Config, q: Reg, cs: seq<Cached>)
    requires FromReset(o) && Apart(prog, ArchOf(o.s), q) && CoherentBut(prog, o, cs, q)
    ensures Like(Run(prog, o, cs).s, Mended(prog, o, cs), q)
    ensures Invariant(prog, HistoryOf(prog, ArchOf(o.s)), Mended(prog, o, cs), Run(prog, o, cs).t)
  {
    hide Invariant, HistoryOf, Apart, TrueBut, Step, NextTags, Truly, Like, CoherentBut, Run, Mended, FromReset;
    if cs == [] {
      NoCycles(prog, o);
      MendedFirst(prog, o, cs);
      ResetInvariant(prog, o);
      LikeItself(o.s, q);
    } else {
      var p := Run(prog, o, Butlast(cs));
      TrueButlast(prog, o, cs, q);
      MendedRun(prog, o, q, Butlast(cs));
      RunLast(prog, o, cs, p);
      MendedLast(prog, o, cs);
      MendedTick(prog, ArchOf(o.s), p.s, Mended(prog, o, Butlast(cs)), q, Last(cs), p.t);
    }
  }

  lemma MendedFirst(prog: Program, o: Config, cs: seq<Cached>)
    requires cs == []
    ensures Mended(prog, o, cs) == o.s
  {
  }

  lemma MendedLast(prog: Program, o: Config, cs: seq<Cached>)
    requires cs != []
    ensures var z := Mended(prog, o, Butlast(cs));
      Mended(prog, o, cs) == Step(prog, z, Truly(Last(cs).hit, z))
  {
    hide Step, Truly;
  }

  /** Whatever the loads bring into a register that the program never names, memory and every
      other register are the sequential ones. */
  lemma UnreadRefines(prog: Program, o: Config, q: Reg, cs: seq<Cached>)
    requires FromReset(o) && Apart(prog, ArchOf(o.s), q) && CoherentBut(prog, o, cs, q)
    ensures var p := Run(prog, o, cs);
      var x := Seq(prog, ArchOf(o.s), Committed(p.t));
      p.s.mem == x.mem && SameBut(WriteRegister(p.s.regs, p.s.w), x.regs, q)
  {
    hide Invariant, HistoryOf, Apart, CoherentBut, Run, Mended, Seq, WriteRegister, Committed, FromReset, SameBut;
    MendedRun(prog, o, q, cs);
    var p, z := Run(prog, o, cs), Mended(prog, o, cs);
    InvariantRefines(prog, ArchOf(o.s), z, p.t);
    LikeWrite(p.s, z, q);
    LikeMemory(p.s, z, q);
  }

  lemma LikeMemory(s: State, z: State, q: Reg)
    requires Like(s, z, q)
    ensures s.mem == z.mem && s.m == z.m
  {
  }

  /** And no instruction is lost. */
  lemma {:induction false} UnreadLossless(prog: Program, o: Config, q: Reg, cs: seq<Cached>)
    requires FromReset(o) && Apart(prog, ArchOf(o.s), q) && CoherentBut(prog, o, cs, q)
    ensures Lossless(prog, o, cs)
  {
    hide Invariant, HistoryOf, Apart, CoherentBut, Run, Mended, Like, NothingLost, FromReset, Lossless;
    if cs == [] {
      NothingToLose(prog, o, cs);
    } else {
      var p := Run(prog, o, Butlast(cs));
      TrueButlast(prog, o, cs, q);
      UnreadLossless(prog, o, q, Butlast(cs));
      MendedRun(prog, o, q, Butlast(cs));
      MendedTick(prog, ArchOf(o.s), p.s, Mended(prog, o, Butlast(cs)), q, Last(cs), p.t);
      LosslessLast(prog, o, cs);
    }
  }

  lemma NothingToLose(prog: Program, o: Config, cs: seq<Cached>)
    requires cs == []
    ensures Lossless(prog, o, cs)
  {
  }

  lemma LosslessLast(prog: Program, o: Config, cs: seq<Cached>)
    requires cs != [] && Lossless(prog, o, Butlast(cs)) && NothingLost(Run(prog, o, Butlast(cs)).s, Last(cs))
    ensures Lossless(prog, o, cs)
  {
    hide NothingLost, Run;
    forall k: nat | k < |cs|
      ensures LosslessAt(prog, o, cs, k)
    {
      if k < |cs| - 1 {
        assert LosslessAt(prog, o, Butlast(cs), k);
        assert Butlast(cs)[..k] == cs[..k];
      }
    }
  }

  // ---------------------------------------------------------- on the complete machine

  predicate SparesAt(prog: Program, y: System, q: Reg, k: nat) {
    var z := After(prog, y, k);
    TrueBut(z.s, Drives(z), q)
  }

  /** In its first n cycles the cache serves wrongly only what goes to q. */
  ghost predicate Spares(prog: Program, y: System, q: Reg, n: nat) {
    AtReset(y.s) && Apart(prog, ArchOf(y.s), q) && forall k: nat :: k < n ==> SparesAt(prog, y, q, k)
  }

  lemma SparesIsCoherent(prog: Program, y: System, q: Reg, n: nat)
    requires Spares(prog, y, q, n)
    ensures CoherentBut(prog, Origin(y), Schedule(prog, y, n), q)
    ensures FromReset(Origin(y)) && Apart(prog, ArchOf(y.s), q) && Origin(y).s == y.s
  {
    hide Run, After, TrueBut, Schedule, TagsAfter, Drives, AtReset, Apart;
    forall k: nat | k < n
      ensures TrueButAt(prog, Origin(y), Schedule(prog, y, n), q, k)
    {
      SchedulePrefix(prog, y, k, n);
      SystemIsRun(prog, y, k);
      assert SparesAt(prog, y, q, k);
    }
  }

  /** The mended pipeline, which corresponds to the sequential execution, beside the machine
      in cycle n. */
  lemma Shadow(prog: Program, y: System, q: Reg, n: nat) returns (z: State)
    requires Spares(prog, y, q, n)
    ensures Invariant(prog, HistoryOf(prog, ArchOf(y.s)), z, TagsAfter(prog, y, n))
    ensures Like(After(prog, y, n).s, z, q)
    ensures var x := After(prog, y, n);
      NothingLost(x.s, Drives(x)) && (CorrectAt(prog, y, n) <==> DataCurrent(x.s, Drives(x)))
  {
    hide Invariant, HistoryOf, Apart, Spares, After, TagsAfter, Mended, NothingLost, CycleOk, Run, Schedule, FromReset,
         Drives, CoherentBut, Origin, DataCurrent, Like;
    var cs := Schedule(prog, y, n);
    SparesIsCoherent(prog, y, q, n);
    SystemIsRun(prog, y, n);
    MendedRun(prog, Origin(y), q, cs);
    z := Mended(prog, Origin(y), cs);
    var x := After(prog, y, n);
    MendedTick(prog, ArchOf(y.s), x.s, z, q, Drives(x), TagsAfter(prog, y, n));
  }

  lemma SparesNoneLost(prog: Program, y: System, q: Reg, n: nat)
    requires Spares(prog, y, q, n)
    ensures NoneLost(prog, y, n)
  {
    hide Apart, AtReset, After, TagsAfter, NothingLost, SparesAt, Invariant, Like, HistoryOf;
    forall k: nat | k < n
      ensures NothingLostAt(prog, y, k)
    {
      var _ := Shadow(prog, y, q, k);
    }
  }

  /** The complete machine: memory and every register but q are the sequential ones, and no
      instruction is lost. */
  lemma SparesRefines(prog: Program, y: System, q: Reg, n: nat)
    requires Spares(prog, y, q, n)
    ensures var s := After(prog, y, n).s;
      var x := Seq(prog, ArchOf(y.s), Committed(TagsAfter(prog, y, n)));
      s.mem == x.mem && SameBut(WriteRegister(s.regs, s.w), x.regs, q)
    ensures NoneLost(prog, y, n)
  {
    hide Apart, Spares, After, TagsAfter, Run, Seq, WriteRegister, Committed, NoneLost, Schedule, FromReset, SameBut,
         CoherentBut, Origin;
    SparesNoneLost(prog, y, q, n);
    SparesIsCoherent(prog, y, q, n);
    SystemIsRun(prog, y, n);
    UnreadRefines(prog, Origin(y), q, Schedule(prog, y, n));
  }

  /** The cache serves wrongly only what goes to q, for ever. */
  ghost predicate AlwaysSpares(prog: Program, y: System, q: Reg) {
    forall n: nat :: Spares(prog, y, q, n)
  }

  lemma ShadowAlways(prog: Program, y: System, q: Reg, n: nat) returns (z: State)
    requires AlwaysSpares(prog, y, q)
    ensures Invariant(prog, HistoryOf(prog, ArchOf(y.s)), z, TagsAfter(prog, y, n))
    ensures var s := After(prog, y, n).s; z.m == s.m && z.mem == s.mem
    ensures var x := After(prog, y, n);
      Orderly(x.s, TagsAfter(prog, y, n)) && NothingLost(x.s, Drives(x)) && NoneLost(prog, y, n)
    ensures var x := After(prog, y, n); CorrectAt(prog, y, n) <==> DataCurrent(x.s, Drives(x))
    ensures AtReset(y.s) && Apart(prog, ArchOf(y.s), q)
  {
    hide Invariant, HistoryOf, Apart, After, TagsAfter, Orderly, NothingLost, NoneLost, Like, SparesAt, CycleOk,
         DataCurrent;
    assert Spares(prog, y, q, n);
    z := Shadow(prog, y, q, n);
    SparesNoneLost(prog, y, q, n);
    SystemOrderly(prog, y, n);
    LikeMemory(After(prog, y, n).s, z, q);
  }
}
