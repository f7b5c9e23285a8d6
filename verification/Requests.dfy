/** The rest of the system keeps its side of the bargain: every request that reaches the
    memory process is a legal one, so what holds after every legal run of the memory
    process holds whenever the system is running. */
module Requests {
  import opened Words
  import opened Paging
  import opened Access
  import opened Lifecycle
  import opened History
  import opened Replacement
  import opened Codec
  import opened Cpu
  import opened System
  import opened Schedules

  /** The request a cycle sends to the memory process, beyond the table lookup. */
  function CycleRequest(m: Memory, prog: Program, c: Context): Option<Request>
    requires Inv(m) && 0 <= c.pc < |prog|
  {
    match prog[c.pc].op
    case MoveIn(_, dl) =>
      (match Translate(m, c.pid, dl) case Ok(Physical(df)) => Some(Request.MovIn(df)) case _ => None)
    case MoveOut(dl, reg) =>
      (match Translate(m, c.pid, dl) case Ok(Physical(df)) => Some(Request.MovOut(df, Get(c.regs, reg))) case _ => None)
    case _ => None
  }

  /** The memory request of a move, if any. */
  function RequestOf(s: Sys, mv: Move): Option<Request>
    requires Inv(s.mem)
  {
    match mv
    case Start(pid, pages, _, _) => Some(Begin(pid, pages))
    case Serve(pid) =>
      if pid in s.pcbs && s.pcbs[pid].status.Blocked? then Some(Fault(Page(pid, s.pcbs[pid].status.page))) else None
    case Finish => if s.cpu.Busy? && s.cpu.ctx.pid >= 0 then Some(End(s.cpu.ctx.pid)) else None
    case RunCycle =>
      if s.cpu.Busy? && s.cpu.ctx.pid >= 0 && s.cpu.ctx.pid in s.pcbs
         && 0 <= s.cpu.ctx.pc < |s.pcbs[s.cpu.ctx.pid].prog|
      then CycleRequest(s.mem, s.pcbs[s.cpu.ctx.pid].prog, s.cpu.ctx) else None
    case _ => None
  }

  /** m became n by the request q, which was legal, or by nothing. */
  ghost predicate Requested(m: Memory, q: Option<Request>, n: Memory)
    requires Inv(m)
  {
    match q
    case None => n == m
    case Some(r) => Legal(m, r) && Handle(m, r) == Ok(n)
  }

  lemma TranslatedInFrame(m: Memory, pg: Page, dl: Word)
    requires Inv(m) && pg in m.ents && m.ents[pg].present && m.ents[pg].frame >= 0
    requires m.pageSize > 0 && dl % m.pageSize + 4 <= m.pageSize
    ensures InFrame(m, At(m.pageSize, m.ents[pg].frame, dl % m.pageSize))
  {
    hide Frames, SwapOwned, Queue, Stamps, Clean, FindFrame;
    FrameNonNegative(m, pg);
    JoinAddress(m.pageSize, dl);
    SplitAddress(m.pageSize, m.ents[pg].frame, dl % m.pageSize);
    FrameInside(|m.owners|, m.pageSize, m.ents[pg].frame);
    PageAtHolder(m, pg);
  }

  lemma CycleRequests(m: Memory, prog: Program, c: Context)
    requires Inv(m) && InPage(prog, m.pageSize) && Cycle(m, prog, c).Ok? && 0 <= c.pc < |prog|
    ensures Requested(m, CycleRequest(m, prog, c), Cycle(m, prog, c).value.m)
  {
    hide Inv, Store, Load, InFrame, At, Put, Get, Loaded32;
    InvShape(m);
    var op := prog[c.pc].op;
    if op.MoveIn? || op.MoveOut? {
      if c.pid >= 0 {
        var pg := Page(c.pid, op.address / m.pageSize);
        if pg in m.ents && m.ents[pg].present {
          FrameNonNegative(m, pg);
          TranslatedInFrame(m, pg, op.address);
        }
      }
    }
  }

  lemma MoveRequests(s: Sys, mv: Move)
    requires SysInv(s) && Enabled(s, mv) && StepDefined(s, mv) && Advance(s, mv).Ok?
    ensures Requested(s.mem, RequestOf(s, mv), Advance(s, mv).value.mem)
  {
    hide Inv, Create, ServeFault, Cycle, CycleRequest, Transmit, Sendable;
    match mv
    case RunCycle =>
      assert PcbOk(s, s.cpu.ctx.pid);
      assert 0 <= s.cpu.ctx.pc < |s.pcbs[s.cpu.ctx.pid].prog| by { CycleInRange(s); }
      CycleRequests(s.mem, s.pcbs[s.cpu.ctx.pid].prog, s.cpu.ctx);
    case Serve(p) => assert PcbOk(s, p);
    case Start(_, _, _, _) =>
    case Finish =>
    case Dispatch(_) =>
    case Interrupt(_) =>
    case Return =>
    case ReportFault =>
  }

  lemma CycleInRange(s: Sys)
    requires Inv(s.mem) && s.cpu.Busy? && s.cpu.ctx.pid >= 0 && s.cpu.ctx.pid in s.pcbs
    requires Cycle(s.mem, s.pcbs[s.cpu.ctx.pid].prog, s.cpu.ctx).Ok?
    ensures 0 <= s.cpu.ctx.pc < |s.pcbs[s.cpu.ctx.pid].prog|
  {
    hide Inv;
  }

  // ---------------------------------------------------------------------- runs

  function Asked(q: Option<Request>): seq<Request> {
    match q case None => [] case Some(r) => [r]
  }

  /** The requests that the moves of a run send to the memory process, in order. */
  ghost function RequestsAlong(m: Memory, mvs: seq<Move>): seq<Request>
    requires RunMoves(Boot(m), mvs).Ok?
  {
    if mvs == [] then []
    else
      var before := mvs[..|mvs| - 1];
      RequestsAlong(m, before) + Asked(RequestOf(RunMoves(Boot(m), before).value.sys, mvs[|mvs| - 1]))
  }

  /** The requests of every run of the system, in the order the moves sent them, are a legal
      run of the memory process that leads to the same memory: fresh pids, faults for absent
      pages only, and accesses inside resident pages. */
  lemma {:induction false} SystemRunsAreLegal(m: Memory, mvs: seq<Move>)
    requires Initial(m) && RunMoves(Boot(m), mvs).Ok?
    ensures Run(World(m, []), RequestsAlong(m, mvs)).Ok?
    ensures Run(World(m, []), RequestsAlong(m, mvs)).value.m == RunMoves(Boot(m), mvs).value.sys.mem
  {
    hide SysInv, Enabled, Advance, StepDefined, Requested, RequestOf, Run, RunMoves, Record, Initial, Inv;
    if mvs == [] {
      RunNothing(m);
    } else {
      var before, mv := mvs[..|mvs| - 1], mvs[|mvs| - 1];
      assert mvs == before + [mv];
      LastMove(Boot(m), before, mv);
      var s := RunMoves(Boot(m), before).value.sys;
      SystemRunsAreLegal(m, before);
      SysMem(s);
      MoveRequests(s, mv);
      Appended(World(m, []), RequestsAlong(m, before), RequestOf(s, mv), RunMoves(Boot(m), mvs).value.sys.mem);
    }
  }

  lemma RunNothing(m: Memory)
    ensures Run(World(m, []), []) == Ok(World(m, [])) && RunMoves(Boot(m), []) == Ok(Boot(m))
  {
  }

  lemma SysMem(s: Sys)
    requires SysInv(s)
    ensures Inv(s.mem)
  {
  }

  lemma Appended(w: World, rs: seq<Request>, q: Option<Request>, n: Memory)
    requires Run(w, rs).Ok? && Inv(Run(w, rs).value.m) && Requested(Run(w, rs).value.m, q, n)
    ensures Run(w, rs + Asked(q)).Ok? && Run(w, rs + Asked(q)).value.m == n
  {
    hide Inv, Legal, Handle, EventOf;
    if q.Some? {
      assert (rs + [q.value])[..|rs|] == rs;
    } else {
      assert rs + [] == rs;
    }
  }

  // --------------------------------------------------------------- replacement

  /** What serving a fault takes out of memory: q, and only when no frame is free. */
  ghost predicate TakesOut(s: Sys, t: Sys, q: Page) {
    q in s.mem.ents && s.mem.ents[q].present && q in t.mem.ents && !t.mem.ents[q].present
  }

  lemma SysTables(s: Sys)
    requires SysInv(s)
    ensures Tables(s.mem)
  {
  }

  lemma ServeTakesVictim(s: Sys, p: nat)
    requires SysInv(s) && Enabled(s, Serve(p)) && StepDefined(s, Serve(p)) && Advance(s, Serve(p)).Ok?
    ensures Tables(s.mem)
    ensures forall q :: TakesOut(s, Advance(s, Serve(p)).value, q) <==>
              q in s.mem.ents && s.mem.ents[q].present && Replaced(s.mem, q)
  {
    hide Inv, ServeFault, Replaced, AfterChoice, Sendable, ProgramOk, FirstFree;
    InvShape(s.mem);
    SysTables(s);
    assert PcbOk(s, p);
    LoadEffect(s.mem, Page(p, s.pcbs[p].status.page));
  }

  /** In every run of the system under LRU, serving a fault takes out a page exactly when no
      frame is free, and then the one whose last access in that run is the oldest. */
  lemma SystemLru(m: Memory, mvs: seq<Move>, p: nat)
    requires Initial(m) && m.policy.Lru? && RunMoves(Boot(m), mvs + [Serve(p)]).Ok?
    ensures RunMoves(Boot(m), mvs).Ok? && Run(World(m, []), RequestsAlong(m, mvs)).Ok?
    ensures var (s, w) := (RunMoves(Boot(m), mvs).value.sys, Run(World(m, []), RequestsAlong(m, mvs)).value);
            && w.m == s.mem
            && forall q :: TakesOut(s, RunMoves(Boot(m), mvs + [Serve(p)]).value.sys, q) <==>
                 FirstFree(s.mem.owners) == |s.mem.owners| && LeastRecentlyUsed(w, q)
  {
    hide SysInv, Enabled, Advance, StepDefined, Initial, Victim, RunMoves, TakesOut, FirstFree, Counted;
    LastMove(Boot(m), mvs, Serve(p));
    SystemRunsAreLegal(m, mvs);
    LruVictim(m, RequestsAlong(m, mvs));
    ServeTakesVictim(RunMoves(Boot(m), mvs).value.sys, p);
  }

  /** And under FIFO, the one that was used first among those used since they were loaded. */
  lemma SystemFifo(m: Memory, mvs: seq<Move>, p: nat)
    requires Initial(m) && m.policy.Fifo? && RunMoves(Boot(m), mvs + [Serve(p)]).Ok?
    ensures RunMoves(Boot(m), mvs).Ok? && Run(World(m, []), RequestsAlong(m, mvs)).Ok?
    ensures var (s, w) := (RunMoves(Boot(m), mvs).value.sys, Run(World(m, []), RequestsAlong(m, mvs)).value);
            && w.m == s.mem
            && forall q :: TakesOut(s, RunMoves(Boot(m), mvs + [Serve(p)]).value.sys, q) <==>
                 FirstFree(s.mem.owners) == |s.mem.owners| && FirstIn(w, q)
  {
    hide SysInv, Enabled, Advance, StepDefined, Initial, Victim, RunMoves, TakesOut, FirstFree;
    LastMove(Boot(m), mvs, Serve(p));
    SystemRunsAreLegal(m, mvs);
    FifoVictim(m, RequestsAlong(m, mvs));
    ServeTakesVictim(RunMoves(Boot(m), mvs).value.sys, p);
  }
}
