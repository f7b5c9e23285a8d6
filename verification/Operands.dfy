/** The page a process is about to use: it changes only when the process completes an
    instruction, a blocked process waits for it, and every move treats memory as one event. */
module Operands {
  import opened Words
  import opened Paging
  import opened Access
  import opened Codec
  import opened Lifecycle
  import opened History
  import opened Replacement
  import opened Cpu
  import opened System
  import opened Schedules

  /** The page the current instruction of p works on, if it is a memory instruction. */
  function OperandPage(s: Sys, p: nat): Option<Page>
    requires p in s.pcbs
  {
    var c, prog := ContextOf(s, p), s.pcbs[p].prog;
    if 0 <= c.pc < |prog| && (prog[c.pc].op.MoveIn? || prog[c.pc].op.MoveOut?) && s.mem.pageSize > 0
    then Some(Page(p, prog[c.pc].op.address / s.mem.pageSize)) else None
  }

  // ------------------------------------------------------------ what moves keep

  /** The access counter never goes back; page size, policy, frames and swap blocks are fixed. */
  predicate Grown(m: Memory, n: Memory) {
    && n.clock >= m.clock && n.policy == m.policy && n.pageSize == m.pageSize
    && |n.owners| == |m.owners| && |n.taken| == |m.taken|
  }

  lemma CycleGrows(m: Memory, prog: Program, c: Context)
    requires Inv(m) && Cycle(m, prog, c).Ok?
    ensures Grown(m, Cycle(m, prog, c).value.m)
  {
    hide Inv, Translate, PageAt, Patch, Le, FromLe, Put, Get, Loaded32;
  }

  lemma ServeGrows(m: Memory, pg: Page)
    requires Inv(m) && ServeFault(m, pg).Ok?
    ensures Grown(m, ServeFault(m, pg).value)
  {
    hide Shape, Tables, Frames, SwapOwned, Queue, Stamps, Clean, EntryOk, Patch;
    if FirstFree(m.owners) == |m.owners| {
      VictimResident(m, Victim(m).value);
    }
  }

  lemma AdvanceGrows(s: Sys, mv: Move)
    requires SysInv(s) && Enabled(s, mv) && StepDefined(s, mv) && Advance(s, mv).Ok?
    ensures Grown(s.mem, Advance(s, mv).value.mem)
  {
    hide Inv, Sendable, Transmit, Cycle, ServeFault;
    match mv
    case RunCycle => CycleGrows(s.mem, s.pcbs[s.cpu.ctx.pid].prog, s.cpu.ctx);
    case Serve(p) => ServeGrows(s.mem, Page(p, s.pcbs[p].status.page));
    case Start(_, _, _, _) =>
    case Finish =>
    case Dispatch(_) =>
    case Interrupt(_) =>
    case Return =>
    case ReportFault =>
  }

  /** A process that does not complete an instruction stays before the same one. */
  lemma OperandStays(s: Sys, mv: Move, q: nat)
    requires SysInv(s) && Enabled(s, mv) && StepDefined(s, mv) && Advance(s, mv).Ok?
    requires q in s.pcbs && q in Advance(s, mv).value.pcbs && !Completes(s, mv, Advance(s, mv).value, q)
    ensures OperandPage(Advance(s, mv).value, q) == OperandPage(s, q)
  {
    hide SysInv, Inv, Enabled, Advance, Seen;
    var t := Advance(s, mv).value;
    StepRight(s, mv);
    assert MoveRight(s, mv, t, q);
    AdvanceGrows(s, mv);
    SeenPcIs(s, q);
    SeenPcIs(t, q);
  }

  lemma SeenPcIs(s: Sys, p: nat)
    requires SysInv(s) && p in s.pcbs
    ensures Seen(s, p).pc == ContextOf(s, p).pc
  {
    hide Inv;
    assert PcbOk(s, p);
  }

  // ------------------------------------------------------------ memory as events

  lemma AccessUses(m: Memory, pg: Page, off: nat, v: Word)
    requires Inv(m) && pg in m.ents && m.ents[pg].present && m.ents[pg].frame >= 0 && off + 4 <= m.pageSize
    ensures var df := At(m.pageSize, m.ents[pg].frame, off);
            && Store(m, df, v).Ok? && Effect(m, Store(m, df, v).value, Used(pg))
            && Load(m, df).Ok? && Effect(m, Load(m, df).value.0, Used(pg))
            && Store(m, df, v).value.pageSize == m.pageSize && Load(m, df).value.0.pageSize == m.pageSize
  {
    hide Tables, Frames, SwapOwned, Queue, Stamps, Clean, Patch, Le, FromLe, EntryOk, PageAt;
    FrameNonNegative(m, pg);
    var df := At(m.pageSize, m.ents[pg].frame, off);
    AccessFits(m, pg, off);
    SplitAddress(m.pageSize, m.ents[pg].frame, off);
    PageAtHolder(m, pg);
    UseEffect(m, pg, df, Le(v));
  }

  lemma AccessFits(m: Memory, pg: Page, off: nat)
    requires Shape(m) && pg in m.ents && 0 <= m.ents[pg].frame < |m.owners| && off + 4 <= m.pageSize
    ensures At(m.pageSize, m.ents[pg].frame, off) + 4 <= |m.ram|
  {
    FrameInside(|m.owners|, m.pageSize, m.ents[pg].frame);
  }

  /** What a cycle of a memory instruction does to memory, seen as an event. */
  ghost predicate CycleEvent(m: Memory, op: Instruction, c: Context, r: Cycled)
    requires Inv(m) && m.pageSize > 0 && c.pid >= 0
  {
    && r.m.pageSize == m.pageSize && r.ctx.pid == c.pid
    && if op.MoveIn? || op.MoveOut? then
         if r.pageFault then
           r.m == m && r.ctx.pc == c.pc && r.ctx.faultPage == Signed(op.address / m.pageSize)
         else Effect(m, r.m, Used(Page(c.pid, op.address / m.pageSize)))
       else r.m == m && !r.pageFault
  }

  /** A real cycle leaves memory alone or uses the operand page of its instruction. */
  lemma CycleUses(m: Memory, prog: Program, c: Context)
    requires Inv(m) && c.pid >= 0 && c.pid in m.count && InPage(prog, m.pageSize) && Cycle(m, prog, c).Ok?
    requires 0 <= c.pc < |prog|
    ensures CycleEvent(m, prog[c.pc].op, c, Cycle(m, prog, c).value)
  {
    hide Inv, Store, Load, Put, Get, Effect, At, Loaded32;
    InvShape(m);
    var op := prog[c.pc].op;
    if op.MoveIn? || op.MoveOut? {
      var pg := Page(c.pid, op.address / m.pageSize);
      if pg in m.ents && m.ents[pg].present {
        FrameNonNegative(m, pg);
        AccessUses(m, pg, op.address % m.pageSize, Get(c.regs, op.reg));
      }
    }
  }

  /** A completed memory instruction uses its operand page; a fault names it and leaves
      the process at the same instruction; anything else leaves memory alone. */
  ghost predicate CycleDoes(s: Sys, t: Sys)
    requires SysInv(s) && s.cpu.Busy?
  {
    var p := s.cpu.ctx.pid;
    && p >= 0 && p in s.pcbs && t.pcbs == s.pcbs && t.cpu.Busy? && t.cpu.ctx.pid == p
    && if t.cpu.pageFault then
         t.mem == s.mem && t.cpu.ctx.faultPage >= 0 && OperandPage(s, p) == Some(Page(p, t.cpu.ctx.faultPage))
       else if OperandPage(s, p).Some? then Effect(s.mem, t.mem, Used(OperandPage(s, p).value))
       else t.mem == s.mem
  }

  lemma CycleOperand(s: Sys)
    requires SysInv(s) && Enabled(s, RunCycle) && StepDefined(s, RunCycle) && Advance(s, RunCycle).Ok?
    requires SysInv(Advance(s, RunCycle).value)
    ensures CycleDoes(s, Advance(s, RunCycle).value)
  {
    hide Inv, Sendable, Effect;
    var p := s.cpu.ctx.pid;
    assert PcbOk(s, p);
    CycleUses(s.mem, s.pcbs[p].prog, s.cpu.ctx);
  }

  /** What a move does to memory, as an event. */
  ghost predicate MoveDoes(s: Sys, mv: Move, t: Sys)
    requires SysInv(s)
  {
    match mv
    case Start(pid, _, _, _) => Effect(s.mem, t.mem, New(pid))
    case Serve(p) =>
      p in s.pcbs && s.pcbs[p].status.Blocked? && Effect(s.mem, t.mem, Loaded(Page(p, s.pcbs[p].status.page)))
    case Finish => s.cpu.Busy? && s.cpu.ctx.pid >= 0 && Effect(s.mem, t.mem, Gone(s.cpu.ctx.pid))
    case RunCycle => s.cpu.Busy? && CycleDoes(s, t)
    case _ => t.mem == s.mem
  }

  lemma MoveEffect(s: Sys, mv: Move)
    requires SysInv(s) && Enabled(s, mv) && StepDefined(s, mv) && Advance(s, mv).Ok?
    ensures SysInv(Advance(s, mv).value) && MoveDoes(s, mv, Advance(s, mv).value)
  {
    hide Inv, Effect, Create, ServeFault, Lifecycle.Finish, Transmit, Sendable, CycleDoes, Cycle, ProgramOk, MoveRight;
    StepRight(s, mv);
    match mv
    case Start(pid, pages, _, _) => StepEffect(s.mem, Begin(pid, pages));
    case Serve(p) =>
      assert PcbOk(s, p);
      LoadEffect(s.mem, Page(p, s.pcbs[p].status.page));
    case Finish => StepEffect(s.mem, End(s.cpu.ctx.pid));
    case RunCycle => CycleOperand(s);
    case Dispatch(_) =>
    case Interrupt(_) =>
    case Return =>
    case ReportFault =>
  }

  // -------------------------------------------------------------------- pending

  /** A blocked process waits for the operand of its current instruction, and so will the
      one whose fault has not been reported; only pids below 100 run, so only they are
      blocked or have a page in memory. */
  ghost predicate Pending(s: Sys) {
    && (forall p :: p in s.pcbs && s.pcbs[p].status.Blocked? ==> BlockedOn(s, p))
    && (s.cpu.Busy? ==> CpuPending(s))
    && (forall pg :: pg in s.mem.ents && s.mem.ents[pg].present ==> pg.pid < 100)
  }

  predicate BlockedOn(s: Sys, p: nat)
    requires p in s.pcbs && s.pcbs[p].status.Blocked?
  {
    p < 100 && OperandPage(s, p) == Some(Page(p, s.pcbs[p].status.page))
  }

  predicate CpuPending(s: Sys)
    requires s.cpu.Busy?
  {
    var p := s.cpu.ctx.pid;
    && 0 <= p < 100 && p in s.pcbs
    && (s.cpu.pageFault ==> s.cpu.ctx.faultPage >= 0 && OperandPage(s, p) == Some(Page(p, s.cpu.ctx.faultPage)))
  }

  /** How the statuses and the CPU change. */
  ghost predicate Statuses(s: Sys, mv: Move, t: Sys) {
    && (forall p :: p in t.pcbs && p !in s.pcbs ==> t.pcbs[p].status.Ready?)
    && (forall p :: p in t.pcbs && p in s.pcbs && t.pcbs[p].status.Blocked? ==>
          t.pcbs[p].status == s.pcbs[p].status
          || (s.cpu.Busy? && s.cpu.pageFault && s.cpu.ctx.pid == p && s.cpu.ctx.faultPage == t.pcbs[p].status.page))
    && (t.cpu.Busy? ==> t.cpu == s.cpu || mv.RunCycle? || (mv.Dispatch? && t.cpu.ctx.pid == mv.pid < 100 && !t.cpu.pageFault))
  }

  lemma MoveStatuses(s: Sys, mv: Move)
    requires SysInv(s) && Enabled(s, mv) && StepDefined(s, mv) && Advance(s, mv).Ok?
    ensures Statuses(s, mv, Advance(s, mv).value)
  {
    hide Inv, Transmit, Sendable, ProgramOk, Cycle, ServeFault, Create, Lifecycle.Finish;
    match mv
    case Dispatch(p) => assert PcbOk(s, p); TransmitExact(s.pcbs[p].ctx);
    case Interrupt(_) => TransmitExact(s.cpu.ctx.(reason := LeaveReason(mv)));
    case Return => TransmitExact(s.cpu.ctx.(reason := LeaveReason(mv)));
    case ReportFault => TransmitExact(s.cpu.ctx.(reason := LeaveReason(mv)));
    case _ =>
  }

  lemma AdvancePending(s: Sys, mv: Move)
    requires SysInv(s) && Pending(s) && Enabled(s, mv) && StepDefined(s, mv) && Advance(s, mv).Ok?
    ensures SysInv(Advance(s, mv).value) && Pending(Advance(s, mv).value)
  {
    hide SysInv, Inv, Enabled, Advance, Effect, Completes, OperandPage, CycleDoes;
    var t := Advance(s, mv).value;
    MoveEffect(s, mv);
    MoveStatuses(s, mv);
    PendingPcbs(s, mv);
    PendingCpu(s, mv);
    PendingPages(s, mv, t);
  }

  lemma PendingPcbs(s: Sys, mv: Move)
    requires SysInv(s) && Pending(s) && Enabled(s, mv) && StepDefined(s, mv) && Advance(s, mv).Ok?
    requires Statuses(s, mv, Advance(s, mv).value) && MoveDoes(s, mv, Advance(s, mv).value)
    ensures var t := Advance(s, mv).value; forall p :: p in t.pcbs && t.pcbs[p].status.Blocked? ==> BlockedOn(t, p)
  {
    hide SysInv, Inv, Enabled, Advance, Effect, OperandPage, MoveDoes;
    var t := Advance(s, mv).value;
    forall p | p in t.pcbs && t.pcbs[p].status.Blocked? ensures BlockedOn(t, p) {
      if p in s.pcbs {
        BlockedNotCompleted(s, mv, t, p);
        OperandStays(s, mv, p);
      }
    }
  }

  lemma BlockedNotCompleted(s: Sys, mv: Move, t: Sys, p: nat)
    requires SysInv(s) && MoveDoes(s, mv, t) && p in s.pcbs && p in t.pcbs && t.pcbs[p].status.Blocked?
    ensures !Completes(s, mv, t, p)
  {
    hide Inv, Effect, OperandPage;
    assert PcbOk(s, p);
  }

  lemma PendingCpu(s: Sys, mv: Move)
    requires SysInv(s) && Pending(s) && Enabled(s, mv) && StepDefined(s, mv) && Advance(s, mv).Ok?
    requires var t := Advance(s, mv).value; SysInv(t) && Statuses(s, mv, t) && MoveDoes(s, mv, t)
    ensures var t := Advance(s, mv).value; t.cpu.Busy? ==> CpuPending(t)
  {
    hide Inv, Enabled, Advance, Effect, OperandPage, Sendable, ProgramOk, PcbOk;
    var t := Advance(s, mv).value;
    if t.cpu.Busy? && t.cpu.pageFault {
      OperandStays(s, mv, t.cpu.ctx.pid);
    }
  }

  lemma PendingPages(s: Sys, mv: Move, t: Sys)
    requires SysInv(s) && Pending(s) && MoveDoes(s, mv, t)
    ensures forall pg :: pg in t.mem.ents && t.mem.ents[pg].present ==> pg.pid < 100
  {
    hide Inv, Frames, OperandPage, Replaced, FirstFree, AfterChoice, Without, PcbOk, CpuOk;
  }

  lemma {:induction false} RunPending(m: Memory, mvs: seq<Move>)
    requires Initial(m) && RunMoves(Boot(m), mvs).Ok?
    ensures RecInv(RunMoves(Boot(m), mvs).value) && Pending(RunMoves(Boot(m), mvs).value.sys)
  {
    hide RecInv, SysInv, Inv, Pending, RunMoves, Record, Initial, Enabled, Advance;
    BootPending(m);
    RunKeepsRec(Boot(m), mvs);
    if mvs != [] {
      var before, mv := mvs[..|mvs| - 1], mvs[|mvs| - 1];
      assert mvs == before + [mv];
      LastMove(Boot(m), before, mv);
      RunPending(m, before);
      AdvancePending(RunMoves(Boot(m), before).value.sys, mv);
    }
  }

  lemma {:induction false} RunGrown(m: Memory, mvs: seq<Move>)
    requires Initial(m) && RunMoves(Boot(m), mvs).Ok?
    ensures Grown(m, RunMoves(Boot(m), mvs).value.sys.mem)
  {
    hide RecInv, SysInv, Inv, Pending, Record, Initial, Enabled, Advance;
    if mvs != [] {
      var before, mv := mvs[..|mvs| - 1], mvs[|mvs| - 1];
      assert mvs == before + [mv];
      LastMove(Boot(m), before, mv);
      RunPending(m, before);
      RecSys(RunMoves(Boot(m), before).value);
      RunGrown(m, before);
      AdvanceGrows(RunMoves(Boot(m), before).value.sys, mv);
    }
  }

  lemma BootPending(m: Memory)
    requires Initial(m)
    ensures RecInv(Boot(m)) && RunMoves(Boot(m), []) == Ok(Boot(m)) && Pending(Boot(m).sys)
  {
    BootInv(m);
  }
}
