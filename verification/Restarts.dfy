/** A page brought in for a faulting instruction is still there when the instruction is
    retried, whatever happens in between: always when no other fault is served, and under
    any other faults when no policy would choose the page. */
module Restarts {
  import opened Words
  import opened Paging
  import opened History
  import opened Replacement
  import opened System
  import opened Schedules
  import opened Operands
  import opened EnoughFrames

  /** The operand of p's current instruction is in memory. */
  predicate OperandHere(s: Sys, p: nat)
    requires p in s.pcbs
  {
    var op := OperandPage(s, p);
    op.Some? && op.value in s.mem.ents && s.mem.ents[op.value].present
  }

  /** And no policy would take it out. */
  predicate OperandSpared(s: Sys, p: nat)
    requires p in s.pcbs
  {
    OperandPage(s, p).Some? && Spared(s.mem, OperandPage(s, p).value)
  }

  // -------------------------------------------------------- one event of memory

  lemma UseKeeps(m: Memory, n: Memory, u: Page, pg: Page)
    requires Inv(m) && Effect(m, n, Used(u)) && pg in m.ents && m.ents[pg].present
    ensures pg in n.ents && n.ents[pg].present && (pg != u && Spared(m, pg) ==> Spared(n, pg))
  {
    hide Inv;
  }

  lemma LoadKeeps(m: Memory, n: Memory, u: Page, pg: Page)
    requires Inv(m) && Effect(m, n, Loaded(u)) && pg in m.ents && m.ents[pg].present
    ensures Spared(m, pg) ==> Spared(n, pg)
  {
    hide Frames, SwapOwned, Stamps, Clean, Tables, Shape, FirstFree, Resident;
    if Replaced(m, pg) {
      VictimResident(m, pg);
    }
  }

  lemma ProcessKeeps(m: Memory, n: Memory, e: Event, pg: Page)
    requires Inv(m) && (e.New? || e.Gone?) && Effect(m, n, e) && pg in m.ents && m.ents[pg].present
    requires e.Gone? ==> pg.pid != e.pid
    ensures pg in n.ents && n.ents[pg].present && (Spared(m, pg) ==> Spared(n, pg))
  {
    hide Frames, SwapOwned, Stamps, Clean, Tables, Shape, Without;
    if e.Gone? {
      WithoutExact(m.touched, (q: Page) => q.pid == e.pid);
    }
  }

  /** The page a fault brings in: in memory, and spared exactly under FIFO or when it was
      never used before. */
  lemma LoadedNow(m: Memory, n: Memory, pg: Page)
    requires Inv(m) && Effect(m, n, Loaded(pg))
    ensures pg in m.ents && pg in n.ents && n.ents[pg].present
    ensures Spared(n, pg) <==> m.policy.Fifo? || m.ents[pg].stamp >= MAX_LRU
  {
    hide Frames, SwapOwned, Stamps, Clean, Tables, Shape, FirstFree, Victim;
  }

  // --------------------------------------------------------------- every move

  /** What stays with p over a move that does not complete its instruction. */
  lemma MoveKeepsOperand(s: Sys, mv: Move, p: nat)
    requires SysInv(s) && Enabled(s, mv) && StepDefined(s, mv) && Advance(s, mv).Ok?
    requires p in s.pcbs && p in Advance(s, mv).value.pcbs && !Completes(s, mv, Advance(s, mv).value, p)
    requires OperandHere(s, p)
    ensures !mv.Serve? ==> OperandHere(Advance(s, mv).value, p)
    ensures OperandSpared(s, p) ==> OperandSpared(Advance(s, mv).value, p)
  {
    hide SysInv, Inv, Enabled, Advance, Effect, OperandPage, Spared;
    var t, pg := Advance(s, mv).value, OperandPage(s, p).value;
    SysMemInv(s);
    MoveEffect(s, mv);
    OperandStays(s, mv, p);
    OperandOwner(s, p);
    match mv
    case Start(pid, _, _, _) => ProcessKeeps(s.mem, t.mem, New(pid), pg);
    case Serve(q) => LoadKeeps(s.mem, t.mem, Page(q, s.pcbs[q].status.page), pg);
    case Finish => FinishedGone(s, p); ProcessKeeps(s.mem, t.mem, Gone(s.cpu.ctx.pid), pg);
    case RunCycle =>
      if OperandPage(s, s.cpu.ctx.pid).Some? && !t.cpu.pageFault {
        OperandOwner(s, s.cpu.ctx.pid);
        UseKeeps(s.mem, t.mem, OperandPage(s, s.cpu.ctx.pid).value, pg);
      }
    case _ =>
  }

  lemma OperandOwner(s: Sys, p: nat)
    requires p in s.pcbs && OperandPage(s, p).Some?
    ensures OperandPage(s, p).value.pid == p
  {
  }

  lemma FinishedGone(s: Sys, p: nat)
    requires SysInv(s) && Enabled(s, Move.Finish) && StepDefined(s, Move.Finish) && Advance(s, Move.Finish).Ok?
    requires p in Advance(s, Move.Finish).value.pcbs
    ensures p != s.cpu.ctx.pid
  {
    hide SysInv, Inv, Lifecycle.Finish;
  }

  /** Serving p's fault brings its operand in; p stays before the same instruction. */
  lemma ServeBrings(s: Sys, p: nat)
    requires SysInv(s) && Pending(s) && Enabled(s, Serve(p)) && StepDefined(s, Serve(p)) && Advance(s, Serve(p)).Ok?
    ensures p in Advance(s, Serve(p)).value.pcbs && OperandHere(Advance(s, Serve(p)).value, p)
    ensures var pg := Page(p, s.pcbs[p].status.page);
            && pg in s.mem.ents && OperandPage(s, p) == Some(pg)
            && (OperandSpared(Advance(s, Serve(p)).value, p) <==> s.mem.policy.Fifo? || s.mem.ents[pg].stamp >= MAX_LRU)
  {
    hide SysInv, Inv, Advance, Effect, OperandPage, Spared;
    assert BlockedOn(s, p);
    SysMemInv(s);
    MovePids(s, Serve(p));
    MoveEffect(s, Serve(p));
    OperandStays(s, Serve(p), p);
    LoadedNow(s.mem, Advance(s, Serve(p)).value.mem, Page(p, s.pcbs[p].status.page));
  }

  /** An instruction whose operand is in memory does not fault. */
  lemma NoFaultHere(s: Sys)
    requires SysInv(s) && Enabled(s, RunCycle) && StepDefined(s, RunCycle) && Advance(s, RunCycle).Ok?
    requires s.cpu.ctx.pid in s.pcbs && OperandHere(s, s.cpu.ctx.pid)
    ensures Advance(s, RunCycle).value.cpu.Busy? && !Advance(s, RunCycle).value.cpu.pageFault
  {
    hide Inv, Effect, OperandPage, Enabled, Advance, PcbOk, Sendable;
    MoveEffect(s, RunCycle);
  }

  // ---------------------------------------------------------------------- runs

  /** How many states p has gone through. */
  function Steps(r: Recorded, p: nat): nat {
    if p in r.traces then |r.traces[p]| else 0
  }

  /** Traces grow exactly with completed instructions, and a pid comes only once. */
  lemma RecordSteps(r: Recorded, mv: Move, p: nat)
    requires RecInv(r) && Record(r, mv).Ok? && p in r.traces
    ensures var u := Record(r, mv).value;
            && p in u.traces && (p in u.sys.pcbs ==> p in r.sys.pcbs)
            && Steps(u, p) == Steps(r, p) + if p in r.sys.pcbs && Completes(r.sys, mv, u.sys, p) then 1 else 0
  {
    hide SysInv, Enabled, Advance, Seen, SoloRun;
    RecSys(r);
    SysDefined(r.sys, mv);
    if !mv.Start? {
      FewerPcbs(r.sys, mv);
    } else {
      StartShape(r.sys, mv);
    }
    if mv.RunCycle? {
      CycleShape(r.sys);
    }
  }

  /** Over a run in which p completes nothing: its operand stays in memory while no fault is
      served, and stays in any case while it is spared. */
  lemma {:induction false} RunKeepsOperand(m: Memory, done: seq<Move>, mvs: seq<Move>, p: nat)
    requires Initial(m) && RunMoves(Boot(m), done + mvs).Ok?
    ensures RunMoves(Boot(m), done).Ok?
    ensures var (r, u) := (RunMoves(Boot(m), done).value, RunMoves(Boot(m), done + mvs).value);
            && (p in r.traces ==> p in u.traces && Steps(r, p) <= Steps(u, p) && (p in u.sys.pcbs ==> p in r.sys.pcbs))
            && (p in r.traces && p in u.sys.pcbs && Steps(r, p) == Steps(u, p) && OperandHere(r.sys, p) ==>
                  && ((forall mv :: mv in mvs ==> !mv.Serve?) ==> OperandHere(u.sys, p))
                  && (OperandSpared(r.sys, p) ==> OperandSpared(u.sys, p)))
  {
    hide RecInv, SysInv, Inv, RunMoves, Record, Initial, Enabled, Advance, OperandHere, OperandSpared, Completes, Steps;
    if mvs == [] {
      assert done + mvs == done;
    } else {
      var before, mv := mvs[..|mvs| - 1], mvs[|mvs| - 1];
      assert done + mvs == (done + before) + [mv];
      LastMove(Boot(m), done + before, mv);
      RunKeepsOperand(m, done, before, p);
      RunPending(m, done + before);
      var v := RunMoves(Boot(m), done + before).value;
      RecSys(v);
      if p in v.traces {
        RecordSteps(v, mv, p);
        LastStep(v, mv, p);
      }
    }
  }

  lemma SparedHere(s: Sys, p: nat)
    requires p in s.pcbs && OperandSpared(s, p)
    ensures OperandHere(s, p)
  {
  }

  lemma LastStep(r: Recorded, mv: Move, p: nat)
    requires RecInv(r) && SysInv(r.sys) && Record(r, mv).Ok? && p in r.traces
    requires Enabled(r.sys, mv) && StepDefined(r.sys, mv) && Advance(r.sys, mv) == Ok(Record(r, mv).value.sys)
    ensures var u := Record(r, mv).value;
            p in u.sys.pcbs && p in r.sys.pcbs && Steps(u, p) == Steps(r, p) ==>
              && (OperandHere(r.sys, p) && !mv.Serve? ==> OperandHere(u.sys, p))
              && (OperandSpared(r.sys, p) ==> OperandSpared(u.sys, p))
  {
    hide RecInv, SysInv, Inv, Record, Enabled, Advance, OperandHere, OperandSpared, Completes;
    var u := Record(r, mv).value;
    RecordSteps(r, mv, p);
    if p in u.sys.pcbs && p in r.sys.pcbs && Steps(u, p) == Steps(r, p) {
      if OperandSpared(r.sys, p) {
        SparedHere(r.sys, p);
      }
      if OperandHere(r.sys, p) {
        MoveKeepsOperand(r.sys, mv, p);
      }
    }
  }

  // ------------------------------------------------------------- main theorems

  /** p's fault is served, then come mvs, in which p completes nothing, and then p is on the
      CPU and runs a cycle. */
  ghost predicate Retries(m: Memory, before: seq<Move>, mvs: seq<Move>, p: nat) {
    var served := before + [Serve(p)];
    && RunMoves(Boot(m), served).Ok? && RunMoves(Boot(m), served + mvs).Ok?
    && RunMoves(Boot(m), served + mvs + [RunCycle]).Ok?
    && var (r, u) := (RunMoves(Boot(m), served).value, RunMoves(Boot(m), served + mvs).value);
       p in u.sys.pcbs && u.sys.cpu.Busy? && u.sys.cpu.ctx.pid == p && Steps(u, p) == Steps(r, p)
  }

  /** The retry goes through: no page fault, and the instruction is completed. */
  ghost predicate RetryCompletes(m: Memory, before: seq<Move>, mvs: seq<Move>, p: nat) {
    var all := before + [Serve(p)] + mvs;
    && RunMoves(Boot(m), all).Ok? && RunMoves(Boot(m), all + [RunCycle]).Ok?
    && var (u, v) := (RunMoves(Boot(m), all).value, RunMoves(Boot(m), all + [RunCycle]).value);
       v.sys.cpu.Busy? && !v.sys.cpu.pageFault && Steps(v, p) == Steps(u, p) + 1
  }

  /** When p's fault is served, the page it waits for will not be chosen before it is used:
      always under FIFO, and under LRU when it has no stamp from an earlier stay, since
      loading does not reset it. */
  ghost predicate LoadedForGood(m: Memory, before: seq<Move>, p: nat) {
    && RunMoves(Boot(m), before).Ok?
    && var s := RunMoves(Boot(m), before).value.sys;
       p in s.pcbs && s.pcbs[p].status.Blocked?
       && var pg := Page(p, s.pcbs[p].status.page);
          pg in s.mem.ents && (s.mem.policy.Fifo? || s.mem.ents[pg].stamp >= MAX_LRU)
  }

  lemma ServedState(m: Memory, before: seq<Move>, p: nat)
    requires Initial(m) && RunMoves(Boot(m), before + [Serve(p)]).Ok?
    ensures var r := RunMoves(Boot(m), before + [Serve(p)]).value;
            && p in r.sys.pcbs && p in r.traces && OperandHere(r.sys, p)
            && (LoadedForGood(m, before, p) ==> OperandSpared(r.sys, p))
  {
    hide RecInv, SysInv, Inv, RunMoves, Record, Initial, Advance, OperandHere, OperandSpared;
    LastMove(Boot(m), before, Serve(p));
    RunPending(m, before);
    RunPending(m, before + [Serve(p)]);
    ServeBrings(RunMoves(Boot(m), before).value.sys, p);
    TracedPcb(RunMoves(Boot(m), before + [Serve(p)]).value, p);
  }

  lemma TracedPcb(r: Recorded, p: nat)
    requires RecInv(r) && p in r.sys.pcbs
    ensures p in r.traces && SysInv(r.sys)
  {
    assert Follows(r, p);
  }

  lemma RetryHere(m: Memory, before: seq<Move>, mvs: seq<Move>, p: nat)
    requires Initial(m) && Retries(m, before, mvs, p)
    requires OperandHere(RunMoves(Boot(m), before + [Serve(p)] + mvs).value.sys, p)
    ensures RetryCompletes(m, before, mvs, p)
  {
    hide RecInv, SysInv, Inv, RunMoves, Record, Initial, Advance, OperandHere, Enabled, Steps;
    var all := before + [Serve(p)] + mvs;
    LastMove(Boot(m), all, RunCycle);
    RunPending(m, all);
    var u := RunMoves(Boot(m), all).value;
    TracedPcb(u, p);
    NoFaultHere(u.sys);
    RecordSteps(u, RunCycle, p);
  }

  /** Fault restart, with anything in between but another fault's service: the retry of an
      instruction whose page was brought in does not fault, so an instruction faults at most
      once unless another fault is served before its retry. */
  lemma RetryWithoutServe(m: Memory, before: seq<Move>, mvs: seq<Move>, p: nat)
    requires Initial(m) && Retries(m, before, mvs, p) && forall mv :: mv in mvs ==> !mv.Serve?
    ensures RetryCompletes(m, before, mvs, p)
  {
    hide RunMoves, Initial, OperandHere, OperandSpared, RetryCompletes, LoadedForGood, Steps;
    ServedState(m, before, p);
    RunKeepsOperand(m, before + [Serve(p)], mvs, p);
    RetryHere(m, before, mvs, p);
  }

  /** And with any other faults served in between, when the page was loaded for good. */
  lemma RetryAmongServes(m: Memory, before: seq<Move>, mvs: seq<Move>, p: nat)
    requires Initial(m) && Retries(m, before, mvs, p) && LoadedForGood(m, before, p)
    ensures RetryCompletes(m, before, mvs, p)
  {
    hide RunMoves, Initial, OperandHere, OperandSpared, RetryCompletes, LoadedForGood, Steps;
    ServedState(m, before, p);
    RunKeepsOperand(m, before + [Serve(p)], mvs, p);
    SparedHere(RunMoves(Boot(m), before + [Serve(p)] + mvs).value.sys, p);
    RetryHere(m, before, mvs, p);
  }
}
