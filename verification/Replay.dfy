/** What the retirements of a run are worth: replaying their writes gives the register file. */
module Replay {
  import opened Words
  import opened Pipeline
  import opened Sequential
  import opened Refinement
  import opened Runs

  /** The register file after a sequence of retirements. */
  function Replayed(regs: Registers, rs: seq<Retirement>): Registers {
    if rs == [] then regs
    else
      var before := Replayed(regs, rs[..|rs| - 1]);
      match rs[|rs| - 1].write
      case NoWrite => before
      case Write(rd, value) => before[rd := value]
  }

  lemma ReplayedLast(regs: Registers, rs: seq<Retirement>, r: Retirement)
    ensures Replayed(regs, rs + [r]) ==
      match r.write
      case NoWrite => Replayed(regs, rs)
      case Write(rd, value) => Replayed(regs, rs)[rd := value]
  {
    assert (rs + [r])[..|rs + [r]| - 1] == rs;
  }

  /** Replaying W's retirement is W's register write. */
  lemma ReplayedW(regs: Registers, rs: seq<Retirement>, w: RegW)
    ensures Replayed(regs, rs + [Retire(w)]) == WriteRegister(Replayed(regs, rs), w)
  {
    hide Result;
    ReplayedLast(regs, rs, Retire(w));
  }

  // ------------------------------------------------------ the sequential trace

  /** The retirements of the first n instructions, replayed, give the registers after them. */
  lemma {:induction false} SeqReplays(prog: Program, a: Arch, n: nat)
    ensures Replayed(a.regs, SeqTrace(HistoryOf(prog, a), n)) == Seq(prog, a, n).regs
  {
    hide HistoryOf, IsHistory, Retire, WriteRegister, Seq, StoreData, Target;
    var h := HistoryOf(prog, a);
    HistoryBefore(prog, a, n);
    if n == 0 {
      FirstState(prog, a, n);
    } else {
      SeqReplays(prog, a, n - 1);
      HistoryBefore(prog, a, n - 1);
      HistoryOfIsHistory(prog, a);
      LinkedRegs(prog, h, n - 1);
      ReplayedW(a.regs, SeqTrace(h, n - 1), h(n - 1).w);
    }
  }

  lemma FirstState(prog: Program, a: Arch, n: nat)
    requires n == 0
    ensures Seq(prog, a, n) == a
  {
  }

  lemma {:induction false} SeqTraceAt(h: History, n: nat, k: nat)
    requires k < n
    ensures |SeqTrace(h, n)| == n && SeqTrace(h, n)[k] == Retire(h(k).w)
  {
    hide Retire;
    if n > 1 {
      SeqTraceAt(h, n - 1, if k < n - 1 then k else 0);
    }
  }

  /** Entry k of the sequential trace: the address behind instruction k and, if it writes a
      register other than x0, that register with its new content. */
  lemma SeqTraceEntry(prog: Program, a: Arch, n: nat, k: nat)
    requires k < n
    ensures |SeqTrace(HistoryOf(prog, a), n)| == n
    ensures var r, i, x := SeqTrace(HistoryOf(prog, a), n)[k], HistoryOf(prog, a)(k), Seq(prog, a, k + 1);
      && r.pcPlus4 == Wrap(Seq(prog, a, k).pc + 4)
      && (i.e.regWrite && i.e.rd != 0 ==> r.write == Write(i.e.rd, x.regs[i.e.rd]))
      && (!i.e.regWrite || i.e.rd == 0 ==> r.write == NoWrite && x.regs == Seq(prog, a, k).regs)
  {
    hide HistoryOf, IsHistory, Seq, Decode, Redirects, Target, LoadData, StoreData;
    var h := HistoryOf(prog, a);
    SeqTraceAt(h, n, k);
    HistoryBefore(prog, a, k);
    HistoryBefore(prog, a, k + 1);
    HistoryOfIsHistory(prog, a);
    LinkedRegs(prog, h, k);
    LinkedStages(prog, h, k);
    StageFields(prog, h, k);
  }

  // ------------------------------------------------------------ the trace of a run

  lemma TraceLast(prog: Program, o: Config, cs: seq<Cached>, p: Config)
    requires cs != [] && p == Run(prog, o, Butlast(cs))
    ensures Trace(prog, o, cs) ==
      Trace(prog, o, Butlast(cs)) + if p.t.w.Real? && !Frozen(p.s, Last(cs)) then [Retire(p.s.w)] else []
  {
    hide Retire, Frozen, Run;
  }

  /** Whatever values are computed: in a run that loses nothing, the retirements, replayed over
      the registers at reset, give the register file that they left, up to what W is writing. */
  lemma {:induction false} TraceReplays(prog: Program, o: Config, cs: seq<Cached>)
    requires FromReset(o) && Lossless(prog, o, cs)
    ensures var p := Run(prog, o, cs);
      var regs := Replayed(o.s.regs, Trace(prog, o, cs));
      && WriteRegister(regs, p.s.w) == WriteRegister(p.s.regs, p.s.w)
      && (cs != [] && !Frozen(Run(prog, o, Butlast(cs)).s, Last(cs)) ==> regs == p.s.regs)
  {
    hide Run, Trace, Lossless, WriteRegister, FromReset, Orderly, Retire, Step, NextTags, Frozen, Replayed;
    if cs == [] {
      NothingRetired(prog, o, cs);
    } else {
      var p := Run(prog, o, Butlast(cs));
      LosslessButlast(prog, o, cs);
      TraceReplays(prog, o, Butlast(cs));
      assert Orderly(p.s, p.t) by {
        ResetOrderly(o);
        OrderlyRun(prog, o, Butlast(cs));
      }
      TraceLast(prog, o, cs, p);
      RunLast(prog, o, cs, p);
      StepWrites(prog, p.s, Last(cs), p.t);
      var rs := Trace(prog, o, Butlast(cs));
      ReplayedW(o.s.regs, rs, p.s.w);
      assert rs + [] == rs;
      if p.t.w.Bubble? {
        assert WriteRegister(Replayed(o.s.regs, rs), p.s.w) == Replayed(o.s.regs, rs);
        assert WriteRegister(p.s.regs, p.s.w) == p.s.regs;
      }
    }
  }

  lemma NothingRetired(prog: Program, o: Config, cs: seq<Cached>)
    requires cs == []
    ensures Run(prog, o, cs) == o && Replayed(o.s.regs, Trace(prog, o, cs)) == o.s.regs
  {
  }

  lemma StepWrites(prog: Program, s: State, c: Cached, t: Tags)
    requires Orderly(s, t)
    ensures Step(prog, s, c).regs == WriteRegister(s.regs, s.w)
    ensures WriteRegister(WriteRegister(s.regs, s.w), s.w) == WriteRegister(s.regs, s.w)
    ensures Frozen(s, c) ==> Step(prog, s, c).w == s.w
    ensures t.w.Bubble? ==> forall regs: Registers :: WriteRegister(regs, s.w) == regs
  {
    StoredTwice(s.regs, s.w);
  }

  /** In a run that meets the conditions they give the registers of the sequential machine
      after as many instructions as have retired, and entry k is that of instruction k. */
  lemma TraceIsReplay(prog: Program, o: Config, cs: seq<Cached>, k: nat)
    requires FromReset(o) && RunOk(prog, o, cs)
    ensures var n := Run(prog, o, cs).t.retired;
      Replayed(o.s.regs, Trace(prog, o, cs)) == Seq(prog, ArchOf(o.s), n).regs
    ensures |Trace(prog, o, cs)| == Run(prog, o, cs).t.retired
    ensures k < |Trace(prog, o, cs)| ==>
      var r, i := Trace(prog, o, cs)[k], HistoryOf(prog, ArchOf(o.s))(k);
      var x := Seq(prog, ArchOf(o.s), k + 1);
      && r.pcPlus4 == Wrap(Seq(prog, ArchOf(o.s), k).pc + 4)
      && r.write == if i.e.regWrite && i.e.rd != 0 then Write(i.e.rd, x.regs[i.e.rd]) else NoWrite
  {
    hide Run, Trace, RunOk, FromReset, Seq, HistoryOf, SeqTrace;
    var n := Run(prog, o, cs).t.retired;
    TraceIsSequential(prog, o, cs);
    SeqReplays(prog, ArchOf(o.s), n);
    SeqTraceLength(HistoryOf(prog, ArchOf(o.s)), n);
    if k < n {
      SeqTraceEntry(prog, ArchOf(o.s), n, k);
    }
  }

  lemma {:induction false} SeqTraceLength(h: History, n: nat)
    ensures |SeqTrace(h, n)| == n
  {
    if n > 0 {
      SeqTraceLength(h, n - 1);
    }
  }
}
