/** No process is ever stuck for good: while there is a frame for each process that can run,
    every live process whose program can go on has a continuation in which it does. */
module Progress {
  import opened Words
  import opened Paging
  import opened Access
  import opened History
  import opened Replacement
  import opened Cpu
  import opened System
  import opened Schedules
  import opened Operands
  import opened EnoughFrames
  import opened Restarts

  /** r is where the moves lead from a boot with memory m. */
  ghost predicate Reached(m: Memory, all: seq<Move>, r: Recorded) {
    Initial(m) && RunMoves(Boot(m), all) == Ok(r)
  }

  lemma ReachedFacts(m: Memory, all: seq<Move>, r: Recorded)
    requires Reached(m, all, r)
    ensures RecInv(r) && SysInv(r.sys) && Pending(r.sys) && Inv(r.sys.mem)
    ensures r.sys.pcbs.Keys <= r.traces.Keys
  {
    hide RunMoves, Initial, Pending, Inv;
    RunPending(m, all);
    RecSys(r);
    SysMemInv(r.sys);
    forall p | p in r.sys.pcbs ensures p in r.traces {
      TracedPcb(r, p);
    }
  }

  /** What p sees is the same, and so is how far it has got. */
  ghost predicate SameFor(r: Recorded, u: Recorded, p: nat)
    requires SysInv(r.sys) && SysInv(u.sys)
  {
    && p in r.sys.pcbs && p in u.sys.pcbs && u.sys.pcbs[p].prog == r.sys.pcbs[p].prog
    && Seen(u.sys, p) == Seen(r.sys, p) && Steps(u, p) == Steps(r, p)
  }

  /** Nobody came, and memory has seen no access. */
  ghost predicate NoNews(r: Recorded, u: Recorded) {
    && u.sys.pcbs.Keys <= r.sys.pcbs.Keys && Grown(r.sys.mem, u.sys.mem) && u.sys.mem.clock == r.sys.mem.clock
    && u.sys.mem.ents.Keys <= r.sys.mem.ents.Keys
  }

  /** One more move. */
  lemma Go(m: Memory, all: seq<Move>, r: Recorded, mv: Move, t: Sys) returns (u: Recorded)
    requires Reached(m, all, r) && Enabled(r.sys, mv) && StepDefined(r.sys, mv) && Advance(r.sys, mv) == Ok(t)
    requires mv.Start? ==> mv.pid !in r.traces
    ensures Reached(m, all + [mv], u) && u.sys == t && SysInv(r.sys) && SysInv(t) && Pending(t)
    ensures MoveDoes(r.sys, mv, t) && Grown(r.sys.mem, t.mem)
    ensures forall p :: p in r.sys.pcbs && p in t.pcbs && !Completes(r.sys, mv, t, p) ==> SameFor(r, u, p)
    ensures forall p :: p in r.traces ==>
              p in u.traces && Steps(u, p) == Steps(r, p) + if p in r.sys.pcbs && Completes(r.sys, mv, t, p) then 1 else 0
  {
    hide RunMoves, Initial, RecInv, SysInv, Inv, Enabled, Advance, Seen, MoveRight, Steps, Completes, MoveDoes, Pending;
    ReachedFacts(m, all, r);
    GoRecorded(r, mv, t);
    LastMove(Boot(m), all, mv);
    u := RunMoves(Boot(m), all + [mv]).value;
    ReachedFacts(m, all + [mv], u);
    MoveEffect(r.sys, mv);
    AdvanceGrows(r.sys, mv);
    StepRight(r.sys, mv);
    forall p | p in r.traces
      ensures p in u.traces && Steps(u, p) == Steps(r, p) + if p in r.sys.pcbs && Completes(r.sys, mv, t, p) then 1 else 0
    {
      RecordSteps(r, mv, p);
    }
    forall p | p in r.sys.pcbs && p in t.pcbs && !Completes(r.sys, mv, t, p) ensures SameFor(r, u, p) {
      assert MoveRight(r.sys, mv, t, p);
      NotCompletes(r.sys, mv, t, p);
    }
  }

  lemma NotCompletes(s: Sys, mv: Move, t: Sys, p: nat)
    requires SysInv(s) && SysInv(t) && p in s.pcbs && p in t.pcbs && MoveRight(s, mv, t, p) && !Completes(s, mv, t, p)
    ensures t.pcbs[p].prog == s.pcbs[p].prog && Seen(t, p) == Seen(s, p)
  {
    hide SysInv, Seen, MachineStep;
  }

  lemma GoRecorded(r: Recorded, mv: Move, t: Sys)
    requires RecInv(r) && SysInv(r.sys) && Enabled(r.sys, mv) && StepDefined(r.sys, mv) && Advance(r.sys, mv) == Ok(t)
    requires mv.Start? ==> mv.pid !in r.traces
    ensures Record(r, mv).Ok? && Record(r, mv).value.sys == t
  {
    hide RecInv, SysInv, Inv, Enabled, Advance, Seen;
    StepRight(r.sys, mv);
  }

  /** The move that takes whoever is on the CPU off it. */
  function Leaving(s: Sys): (mv: Move)
    requires s.cpu.Busy?
    ensures !mv.Start? && !mv.RunCycle? && !mv.Serve?
  {
    if s.cpu.pageFault then ReportFault
    else if s.cpu.ctx.lastCode == EXIT then Move.Finish
    else if IsSyscall(s.cpu.ctx.lastCode) then Return
    else Interrupt(INTERRUPT_FIN_QUANTUM)
  }

  lemma LeavingWorks(s: Sys)
    requires SysInv(s) && s.cpu.Busy?
    ensures Enabled(s, Leaving(s)) && StepDefined(s, Leaving(s)) && Advance(s, Leaving(s)).Ok?
    ensures var t := Advance(s, Leaving(s)).value;
            && t.cpu.Idle? && t.pcbs.Keys <= s.pcbs.Keys && t.mem.clock == s.mem.clock
            && t.mem.ents.Keys <= s.mem.ents.Keys
            && forall p :: p in s.pcbs && !AtExit(s, p) ==> p in t.pcbs
  {
    hide Inv, Transmit, Sendable, ProgramOk, Lifecycle.Finish, Cycle, Effect;
    SysDefined(s, Leaving(s));
    if Leaving(s).Finish? {
      FinishRight(s);
      SysMemInv(s);
      FinishClock(s.mem, s.cpu.ctx.pid);
    } else {
      LeaveRight(s, Leaving(s));
    }
  }

  lemma FinishClock(m: Memory, pid: int)
    requires Inv(m) && pid >= 0 && Lifecycle.Finish(m, pid).Ok?
    ensures Lifecycle.Finish(m, pid).value.clock == m.clock
    ensures Lifecycle.Finish(m, pid).value.ents.Keys <= m.ents.Keys
  {
  }

  /** The CPU can always be freed without anybody noticing. */
  lemma FreeCpu(m: Memory, all: seq<Move>, r: Recorded) returns (more: seq<Move>, u: Recorded)
    requires Reached(m, all, r)
    ensures Reached(m, all + more, u) && SysInv(r.sys) && SysInv(u.sys) && u.sys.cpu.Idle? && NoNews(r, u)
    ensures more == if r.sys.cpu.Idle? then [] else [Leaving(r.sys)]
    ensures forall p :: p in r.sys.pcbs && !AtExit(r.sys, p) ==> SameFor(r, u, p)
  {
    hide SysInv, Inv, Enabled, Advance, Leaving, Seen, MoveDoes, Steps, Pending, RunMoves, RecInv;
    ReachedFacts(m, all, r);
    if r.sys.cpu.Idle? {
      more, u := [], r;
      assert all + [] == all;
    } else {
      LeavingWorks(r.sys);
      more := [Leaving(r.sys)];
      u := Go(m, all, r, Leaving(r.sys), Advance(r.sys, Leaving(r.sys)).value);
    }
  }

  // ------------------------------------------------------------------- one step

  /** There is a frame for every page; or one for everybody who can run, and accesses still
      count. */
  ghost predicate Roomy(m: Memory, s: Sys) {
    |s.mem.ents| <= |m.owners| || (|Dispatchable(s)| <= |m.owners| && CounterFits(s.mem))
  }

  lemma RoomyStays(m: Memory, r: Recorded, u: Recorded)
    requires Roomy(m, r.sys) && NoNews(r, u)
    ensures Roomy(m, u.sys)
  {
    SubsetSize(Dispatchable(u.sys), Dispatchable(r.sys));
    FewerPages(u.sys.mem.ents.Keys, r.sys.mem.ents.Keys);
  }

  lemma {:induction false} FewerPages(a: set<Page>, b: set<Page>)
    requires a <= b
    ensures |a| <= |b|
  {
    if a != {} {
      var x :| x in a;
      FewerPages(a - {x}, b - {x});
    }
  }

  /** Serve p's fault; its view does not change, and its operand is then in memory. */
  lemma ServeIt(m: Memory, all: seq<Move>, r: Recorded, p: nat) returns (u: Recorded)
    requires Reached(m, all, r) && Roomy(m, r.sys) && SysInv(r.sys) && r.sys.cpu.Idle?
    requires p in r.sys.pcbs && r.sys.pcbs[p].status.Blocked?
    ensures Reached(m, all + [Serve(p)], u) && SysInv(u.sys) && u.sys.cpu.Idle? && NoNews(r, u) && SameFor(r, u, p)
    ensures u.sys.pcbs[p].status.Ready? && OperandHere(u.sys, p)
  {
    hide SysInv, Inv, RunMoves, RecInv, Pending, Initial, Seen, Steps, OperandHere, Effect, Advance;
    ReachedFacts(m, all, r);
    SysDefined(r.sys, Serve(p));
    RoomyServes(m, all, r, p);
    ServeDies(r.sys, p);
    ServeBrings(r.sys, p);
    ServeShape(r.sys, p);
    u := Go(m, all, r, Serve(p), Advance(r.sys, Serve(p)).value);
  }

  lemma RoomyServes(m: Memory, all: seq<Move>, r: Recorded, p: nat)
    requires Reached(m, all, r) && Roomy(m, r.sys) && SysInv(r.sys) && p in r.sys.pcbs && r.sys.pcbs[p].status.Blocked?
    ensures FirstFree(r.sys.mem.owners) < |r.sys.mem.owners| || Victim(r.sys.mem).Some?
  {
    hide SysInv, Inv, RunMoves, RecInv, Pending, Initial, SparedArePending, Victim, FirstFree, Dispatchable;
    ReachedFacts(m, all, r);
    RunGrown(m, all);
    if |r.sys.mem.ents| <= |m.owners| {
      BlockedAbsent(r.sys, p);
      RoomForAbsent(r.sys.mem, Page(p, r.sys.pcbs[p].status.page));
    } else {
      RunSpares(m, all);
      EnoughFramesServe(r.sys, p);
    }
  }

  lemma ServeShape(s: Sys, p: nat)
    requires SysInv(s) && Enabled(s, Serve(p)) && StepDefined(s, Serve(p)) && Advance(s, Serve(p)).Ok?
    ensures var t := Advance(s, Serve(p)).value;
            && t.cpu == s.cpu && t.pcbs.Keys == s.pcbs.Keys && t.pcbs[p].status.Ready?
            && t.mem.clock == s.mem.clock && t.mem.ents.Keys == s.mem.ents.Keys
  {
    hide Inv, ServeFault, Sendable, ProgramOk, Effect;
    SysMemInv(s);
    MoveEffect(s, Serve(p));
    ServeClock(s, p);
  }

  lemma ServeClock(s: Sys, p: nat)
    requires SysInv(s) && p in s.pcbs && s.pcbs[p].status.Blocked?
    requires ServeFault(s.mem, Page(p, s.pcbs[p].status.page)).Ok?
    ensures var n := ServeFault(s.mem, Page(p, s.pcbs[p].status.page)).value;
            n.clock == s.mem.clock && n.ents.Keys == s.mem.ents.Keys
  {
    hide Inv, Replaced, AfterChoice, ServeFault;
    SysMemInv(s);
    assert PcbOk(s, p);
    LoadEffect(s.mem, Page(p, s.pcbs[p].status.page));
  }

  /** Nobody but p is touched. */
  predicate Beside(s: Sys, t: Sys, p: nat) {
    t.pcbs.Keys == s.pcbs.Keys && forall q :: q in s.pcbs && q != p ==> t.pcbs[q] == s.pcbs[q]
  }

  /** Put p on the CPU. */
  lemma DispatchIt(m: Memory, all: seq<Move>, r: Recorded, p: nat) returns (u: Recorded)
    requires Reached(m, all, r) && SysInv(r.sys) && r.sys.cpu.Idle?
    requires p in r.sys.pcbs && p < 100 && r.sys.pcbs[p].status.Ready?
    ensures u.sys.cpu.Busy? && u.sys.cpu.ctx.pid == p && u.sys.mem == r.sys.mem && Beside(r.sys, u.sys, p)
    ensures Reached(m, all + [Dispatch(p)], u) && SysInv(u.sys) && NoNews(r, u)
    ensures Enabled(u.sys, RunCycle) && StepDefined(u.sys, RunCycle)
    ensures forall q :: q in r.sys.pcbs ==> SameFor(r, u, q)
    ensures OperandHere(r.sys, p) ==> OperandHere(u.sys, p)
  {
    hide SysInv, Inv, RunMoves, RecInv, Pending, Initial, Seen, Steps, OperandHere, Advance, Sendable;
    ReachedFacts(m, all, r);
    SysDefined(r.sys, Dispatch(p));
    DispatchRight(r.sys, p);
    DispatchShape(r.sys, p);
    u := Go(m, all, r, Dispatch(p), Advance(r.sys, Dispatch(p)).value);
    SysDefined(u.sys, RunCycle);
    if OperandHere(r.sys, p) {
      MoveKeepsOperand(r.sys, Dispatch(p), p);
    }
  }

  lemma DispatchShape(s: Sys, p: nat)
    requires SysInv(s) && Enabled(s, Dispatch(p)) && StepDefined(s, Dispatch(p)) && Advance(s, Dispatch(p)).Ok?
    ensures var t := Advance(s, Dispatch(p)).value;
            && t.cpu.Busy? && !t.cpu.pageFault && t.cpu.ctx.pid == p && !IsSyscall(t.cpu.ctx.lastCode)
            && Beside(s, t, p) && t.mem == s.mem
  {
    hide Inv, Transmit, Sendable, ProgramOk;
    assert PcbOk(s, p);
    TransmitExact(s.pcbs[p].ctx);
  }

  /** The current instruction of p is op. */
  ghost predicate AtOp(s: Sys, p: nat, op: Instruction)
    requires SysInv(s) && p in s.pcbs
  {
    0 <= Seen(s, p).pc < |s.pcbs[p].prog| && s.pcbs[p].prog[Seen(s, p).pc].op == op
  }

  /** What one cycle of p, on the CPU, leaves. */
  ghost predicate CycleDone(r: Recorded, u: Recorded, p: nat)
    requires SysInv(r.sys) && SysInv(u.sys)
  {
    && u.sys.pcbs == r.sys.pcbs && p in u.sys.pcbs && u.sys.cpu.Busy? && u.sys.cpu.ctx.pid == p
    && Grown(r.sys.mem, u.sys.mem) && u.sys.mem.ents.Keys == r.sys.mem.ents.Keys
    && if u.sys.cpu.pageFault then SameFor(r, u, p) && u.sys.mem == r.sys.mem
       else
         && Steps(u, p) == Steps(r, p) + 1 && p in r.sys.pcbs
         && u.sys.mem.clock == r.sys.mem.clock + (if OperandPage(r.sys, p).Some? then 1 else 0)
         && (AtExit(u.sys, p) <==> AtOp(r.sys, p, Instruction.Exit))
         && (!AtOp(r.sys, p, Instruction.Exit) ==>
               MachineStep(r.sys.pcbs[p].prog, Seen(r.sys, p)) == Runs(Seen(u.sys, p)))
  }

  lemma CycleIt(m: Memory, all: seq<Move>, r: Recorded, p: nat) returns (u: Recorded)
    requires Reached(m, all, r) && SysInv(r.sys) && Enabled(r.sys, RunCycle) && StepDefined(r.sys, RunCycle)
    requires r.sys.cpu.ctx.pid == p && p in r.sys.pcbs && !MachineStep(r.sys.pcbs[p].prog, Seen(r.sys, p)).Stuck?
    ensures Reached(m, all + [RunCycle], u) && SysInv(u.sys) && CycleDone(r, u, p) && CycleDoes(r.sys, u.sys)
    ensures forall q :: q in r.sys.pcbs && q != p ==> SameFor(r, u, q)
    ensures OperandHere(r.sys, p) ==> !u.sys.cpu.pageFault
    ensures OperandPage(r.sys, p).Some? && !u.sys.cpu.pageFault ==> !IsSyscall(u.sys.cpu.ctx.lastCode)
  {
    hide SysInv, Inv, RunMoves, RecInv, Pending, Initial, Seen, Steps, OperandHere, OperandPage, Advance, MachineStep, Effect;
    ReachedFacts(m, all, r);
    RunCycleRight(r.sys);
    var t := Advance(r.sys, RunCycle).value;
    CycleClock(r.sys);
    CycleExit(r.sys);
    if OperandHere(r.sys, p) {
      NoFaultHere(r.sys);
    }
    u := Go(m, all, r, RunCycle, t);
    if !t.cpu.pageFault {
      CycleMachine(r.sys, t);
      if OperandPage(r.sys, p).Some? {
        MoveCode(r.sys);
      }
    }
  }

  lemma MoveCode(s: Sys)
    requires SysInv(s) && Enabled(s, RunCycle) && StepDefined(s, RunCycle) && Advance(s, RunCycle).Ok?
    requires s.cpu.ctx.pid in s.pcbs && OperandPage(s, s.cpu.ctx.pid).Some?
    ensures Advance(s, RunCycle).value.cpu.Busy? && !IsSyscall(Advance(s, RunCycle).value.cpu.ctx.lastCode)
  {
    hide Inv, Translate, Put, Get, Load, Store, Loaded32, Sendable, ProgramOk, PcbOk;
  }

  lemma CycleMachine(s: Sys, t: Sys)
    requires SysInv(s) && SysInv(t) && s.cpu.Busy? && Enabled(s, RunCycle) && StepDefined(s, RunCycle) && Advance(s, RunCycle) == Ok(t)
    requires t.cpu.Busy? && !t.cpu.pageFault && t.pcbs == s.pcbs && s.cpu.ctx.pid in s.pcbs
    requires t.cpu.ctx.pid == s.cpu.ctx.pid
    ensures var p := s.cpu.ctx.pid;
            !AtOp(s, p, Instruction.Exit) ==> MachineStep(s.pcbs[p].prog, Seen(s, p)) == Runs(Seen(t, p))
  {
    hide SysInv, Inv, Enabled, Advance, Seen, MachineStep;
    StepRight(s, RunCycle);
    assert MoveRight(s, RunCycle, t, s.cpu.ctx.pid);
  }

  /** A completed cycle leaves EXIT as the last code exactly when it executed EXIT. */
  lemma CycleExit(s: Sys)
    requires SysInv(s) && Enabled(s, RunCycle) && StepDefined(s, RunCycle) && Advance(s, RunCycle).Ok?
    requires s.cpu.ctx.pid in s.pcbs
    ensures var t := Advance(s, RunCycle).value;
            && t.cpu.Busy? && t.cpu.ctx.pid == s.cpu.ctx.pid && t.pcbs == s.pcbs
            && (!t.cpu.pageFault ==> (AtExit(t, s.cpu.ctx.pid) <==> AtOp(s, s.cpu.ctx.pid, Instruction.Exit)))
  {
    hide Inv, Translate, Put, Get, Load, Store, Loaded32, Seen, Sendable, ProgramOk, PcbOk;
    CycleShape(s);
    SeenPc(s, s.cpu.ctx.pid);
  }

  lemma CycleClock(s: Sys)
    requires SysInv(s) && Enabled(s, RunCycle) && StepDefined(s, RunCycle) && Advance(s, RunCycle).Ok?
    ensures var t := Advance(s, RunCycle).value;
            && t.mem.ents.Keys == s.mem.ents.Keys && t.cpu.Busy? && s.cpu.ctx.pid in s.pcbs
            && (!t.cpu.pageFault ==>
                  t.mem.clock == s.mem.clock + if OperandPage(s, s.cpu.ctx.pid).Some? then 1 else 0)
  {
    hide Inv, Frames, Advance, OperandPage, PcbOk, Enabled;
    MoveEffect(s, RunCycle);
  }

  /** A fault is reported: p is blocked and the CPU is free. */
  lemma ReportIt(m: Memory, all: seq<Move>, r: Recorded, p: nat) returns (u: Recorded)
    requires Reached(m, all, r) && SysInv(r.sys) && r.sys.cpu.Busy? && r.sys.cpu.pageFault && r.sys.cpu.ctx.pid == p
    requires p in r.sys.pcbs && r.sys.cpu.ctx.faultPage >= 0
    ensures Reached(m, all + [ReportFault], u) && SysInv(u.sys) && NoNews(r, u) && SameFor(r, u, p)
    ensures u.sys.cpu.Idle? && u.sys.pcbs[p].status == Blocked(r.sys.cpu.ctx.faultPage)
    ensures u.sys.mem == r.sys.mem && Beside(r.sys, u.sys, p)
    ensures forall q :: q in r.sys.pcbs ==> SameFor(r, u, q)
  {
    hide SysInv, Inv, RunMoves, RecInv, Pending, Initial, Seen, Steps, Advance, Sendable;
    ReachedFacts(m, all, r);
    SysDefined(r.sys, ReportFault);
    LeaveRight(r.sys, ReportFault);
    ReportShape(r.sys);
    u := Go(m, all, r, ReportFault, Advance(r.sys, ReportFault).value);
  }

  lemma ReportShape(s: Sys)
    requires SysInv(s) && Enabled(s, ReportFault) && StepDefined(s, ReportFault) && Advance(s, ReportFault).Ok?
    ensures var (t, p) := (Advance(s, ReportFault).value, s.cpu.ctx.pid);
            && t.cpu.Idle? && t.mem == s.mem && s.cpu.ctx.faultPage >= 0 && p >= 0 && Beside(s, t, p)
            && p in t.pcbs && t.pcbs[p].status == Blocked(s.cpu.ctx.faultPage)
  {
    hide Inv, Transmit, Sendable, ProgramOk;
    TransmitExact(s.cpu.ctx.(reason := PAGE_FAULT));
  }

  // -------------------------------------------------------------------- turns

  /** An instruction whose operand is absent does not complete. */
  lemma AbsentFaults(s: Sys, t: Sys)
    requires SysInv(s) && s.cpu.Busy? && CycleDoes(s, t)
    requires OperandPage(s, s.cpu.ctx.pid).Some? && !OperandHere(s, s.cpu.ctx.pid)
    ensures t.cpu.pageFault && t.cpu.ctx.faultPage >= 0
    ensures OperandPage(s, s.cpu.ctx.pid) == Some(Page(s.cpu.ctx.pid, t.cpu.ctx.faultPage))
  {
    hide SysInv, OperandPage;
  }

  lemma SameOperandPage(r: Recorded, u: Recorded, p: nat)
    requires SysInv(r.sys) && SysInv(u.sys) && SameFor(r, u, p) && u.sys.mem.pageSize == r.sys.mem.pageSize
    ensures OperandPage(u.sys, p) == OperandPage(r.sys, p)
  {
    hide SysInv, Seen;
    SeenPcIs(r.sys, p);
    SeenPcIs(u.sys, p);
  }

  lemma OneByOne(all: seq<Move>, a: Move, b: Move, c: Move)
    ensures all + [a, b, c] == all + [a] + [b] + [c]
  {
  }

  /** A turn of p that ends in a page fault: p is blocked on its operand, and nothing else
      has happened. */
  lemma FaultTurn(m: Memory, all: seq<Move>, r: Recorded, p: nat) returns (more: seq<Move>, u: Recorded)
    requires Reached(m, all, r) && SysInv(r.sys) && r.sys.cpu.Idle?
    requires p in r.sys.pcbs && p < 100 && r.sys.pcbs[p].status.Ready?
    requires !MachineStep(r.sys.pcbs[p].prog, Seen(r.sys, p)).Stuck?
    requires OperandPage(r.sys, p).Some? && !OperandHere(r.sys, p)
    ensures more == [Dispatch(p), RunCycle, ReportFault]
    ensures Reached(m, all + more, u) && SysInv(u.sys) && u.sys.cpu.Idle? && u.sys.mem == r.sys.mem
    ensures Beside(r.sys, u.sys, p) && u.sys.pcbs[p].status == Blocked(OperandPage(r.sys, p).value.index)
    ensures forall q :: q in r.sys.pcbs ==> SameFor(r, u, q)
  {
    hide SysInv, Inv, Reached, Seen, Steps, MachineStep, Enabled, StepDefined, CycleDoes, OperandPage, AtExit, AtOp;
    more := [Dispatch(p), RunCycle, ReportFault];
    var a := DispatchIt(m, all, r, p);
    SameOperandPage(r, a, p);
    var b := CycleIt(m, all + [Dispatch(p)], a, p);
    StillAbsent(r.sys, a.sys, p);
    AbsentFaults(a.sys, b.sys);
    u := ReportIt(m, all + [Dispatch(p)] + [RunCycle], b, p);
    OneByOne(all, Dispatch(p), RunCycle, ReportFault);
  }

  lemma StillAbsent(s: Sys, t: Sys, p: nat)
    requires p in s.pcbs && p in t.pcbs && !OperandHere(s, p) && OperandPage(t, p) == OperandPage(s, p) && t.mem == s.mem
    ensures !OperandHere(t, p)
  {
    hide OperandPage;
  }

  /** A turn of p that uses its operand and is then interrupted. */
  lemma UseTurn(m: Memory, all: seq<Move>, r: Recorded, p: nat) returns (more: seq<Move>, u: Recorded)
    requires Reached(m, all, r) && SysInv(r.sys) && r.sys.cpu.Idle?
    requires p in r.sys.pcbs && p < 100 && r.sys.pcbs[p].status.Ready? && OperandHere(r.sys, p)
    requires !MachineStep(r.sys.pcbs[p].prog, Seen(r.sys, p)).Stuck? && !AtOp(r.sys, p, Instruction.Exit)
    ensures Reached(m, all + more, u) && SysInv(u.sys) && u.sys.cpu.Idle? && Inv(r.sys.mem)
    ensures Effect(r.sys.mem, u.sys.mem, Used(OperandPage(r.sys, p).value)) && Grown(r.sys.mem, u.sys.mem)
    ensures Beside(r.sys, u.sys, p) && u.sys.pcbs[p].status.Ready? && u.sys.pcbs[p].prog == r.sys.pcbs[p].prog
    ensures MachineStep(r.sys.pcbs[p].prog, Seen(r.sys, p)) == Runs(Seen(u.sys, p))
    ensures forall q :: q in r.sys.pcbs && q != p ==> SameFor(r, u, q)
  {
    hide SysInv, Inv, Reached, Seen, Steps, MachineStep, Enabled, CycleDoes, OperandPage, AtExit, AtOp, Effect,
         Advance, Leaving, MoveDoes, IsSyscall;
    SysMemInv(r.sys);
    more := [Dispatch(p), RunCycle, Interrupt(INTERRUPT_FIN_QUANTUM)];
    var a := DispatchIt(m, all, r, p);
    SameOperandPage(r, a, p);
    SameOp(r, a, p);
    var b := CycleIt(m, all + [Dispatch(p)], a, p);
    UsedOperand(a.sys, b.sys);
    InterruptNow(b.sys);
    u := Go(m, all + [Dispatch(p)] + [RunCycle], b, Interrupt(INTERRUPT_FIN_QUANTUM),
            Advance(b.sys, Interrupt(INTERRUPT_FIN_QUANTUM)).value);
    OneByOne(all, Dispatch(p), RunCycle, Interrupt(INTERRUPT_FIN_QUANTUM));
  }

  lemma SameOp(r: Recorded, u: Recorded, p: nat)
    requires SysInv(r.sys) && SysInv(u.sys) && SameFor(r, u, p)
    ensures AtOp(u.sys, p, Instruction.Exit) == AtOp(r.sys, p, Instruction.Exit)
  {
    hide SysInv, Seen;
  }

  lemma UsedOperand(s: Sys, t: Sys)
    requires SysInv(s) && s.cpu.Busy? && CycleDoes(s, t) && !t.cpu.pageFault && s.cpu.ctx.pid >= 0
    requires OperandPage(s, s.cpu.ctx.pid).Some?
    ensures Effect(s.mem, t.mem, Used(OperandPage(s, s.cpu.ctx.pid).value))
  {
    hide SysInv, OperandPage, Effect;
  }

  lemma InterruptNow(s: Sys)
    requires SysInv(s) && s.cpu.Busy? && !s.cpu.pageFault && !IsSyscall(s.cpu.ctx.lastCode)
    ensures var mv := Interrupt(INTERRUPT_FIN_QUANTUM);
            && Enabled(s, mv) && StepDefined(s, mv) && Advance(s, mv).Ok?
            && var (t, p) := (Advance(s, mv).value, s.cpu.ctx.pid);
               t.cpu.Idle? && t.mem == s.mem && p >= 0 && Beside(s, t, p) && p in t.pcbs && t.pcbs[p].status.Ready?
  {
    hide Inv, Transmit, Sendable, ProgramOk;
    SysDefined(s, Interrupt(INTERRUPT_FIN_QUANTUM));
    TransmitExact(s.cpu.ctx.(reason := INTERRUPT_FIN_QUANTUM));
  }

  // ------------------------------------------------------------------- progress

  /** Between r and u, p completed one instruction and is on the CPU. */
  ghost predicate OneStep(r: Recorded, u: Recorded, p: nat)
    requires SysInv(r.sys) && SysInv(u.sys)
  {
    && p in r.sys.pcbs && p in u.sys.pcbs && u.sys.pcbs.Keys <= r.sys.pcbs.Keys
    && u.sys.pcbs[p].prog == r.sys.pcbs[p].prog && Grown(r.sys.mem, u.sys.mem)
    && u.sys.mem.clock == r.sys.mem.clock + (if OperandPage(r.sys, p).Some? then 1 else 0)
    && u.sys.mem.ents.Keys <= r.sys.mem.ents.Keys && Steps(u, p) == Steps(r, p) + 1
    && u.sys.cpu.Busy? && u.sys.cpu.ctx.pid == p && !u.sys.cpu.pageFault
    && (AtExit(u.sys, p) <==> AtOp(r.sys, p, Instruction.Exit))
  }

  /** From a free CPU with p ready: one cycle, or a fault, its service and the retry. */
  lemma StepFromReady(m: Memory, all: seq<Move>, r: Recorded, p: nat) returns (more: seq<Move>, u: Recorded)
    requires Reached(m, all, r) && SysInv(r.sys) && r.sys.cpu.Idle? && Roomy(m, r.sys)
    requires p in r.sys.pcbs && p < 100 && r.sys.pcbs[p].status.Ready?
    requires !MachineStep(r.sys.pcbs[p].prog, Seen(r.sys, p)).Stuck?
    ensures Reached(m, all + more, u) && SysInv(u.sys) && OneStep(r, u, p)
  {
    hide SysInv, Inv, Reached, Seen, Steps, OperandHere, OperandPage, MachineStep, Enabled, StepDefined;
    var a := DispatchIt(m, all, r, p);
    SameOperandPage(r, a, p);
    var b := CycleIt(m, all + [Dispatch(p)], a, p);
    if !b.sys.cpu.pageFault {
      more, u := [Dispatch(p), RunCycle], b;
      assert all + more == all + [Dispatch(p)] + [RunCycle];
    } else {
      var c := ReportIt(m, all + [Dispatch(p)] + [RunCycle], b, p);
      RoomyStays(m, r, c);
      var d := ServeIt(m, all + [Dispatch(p)] + [RunCycle] + [ReportFault], c, p);
      var e := DispatchIt(m, all + [Dispatch(p)] + [RunCycle] + [ReportFault] + [Serve(p)], d, p);
      SameOperandPage(r, e, p);
      u := CycleIt(m, all + [Dispatch(p)] + [RunCycle] + [ReportFault] + [Serve(p)] + [Dispatch(p)], e, p);
      more := [Dispatch(p), RunCycle, ReportFault, Serve(p), Dispatch(p), RunCycle];
      assert all + more
          == all + [Dispatch(p)] + [RunCycle] + [ReportFault] + [Serve(p)] + [Dispatch(p)] + [RunCycle];
    }
  }

  lemma NotRunning(s: Sys, p: nat)
    requires SysInv(s) && s.cpu.Idle? && p in s.pcbs
    ensures s.pcbs[p].status.Ready? || s.pcbs[p].status.Blocked?
  {
    hide Inv;
    assert PcbOk(s, p);
  }

  /** From wherever the system is, with a frame for each process that can run: a process
      that can run, has not executed EXIT and is not stuck on its flat machine can be given
      its next instruction to the end. */
  lemma NextInstruction(m: Memory, all: seq<Move>, r: Recorded, p: nat) returns (more: seq<Move>, u: Recorded)
    requires Reached(m, all, r) && SysInv(r.sys) && Roomy(m, r.sys)
    requires p in r.sys.pcbs && p < 100 && !AtExit(r.sys, p)
    requires !MachineStep(r.sys.pcbs[p].prog, Seen(r.sys, p)).Stuck?
    ensures Reached(m, all + more, u) && SysInv(u.sys) && OneStep(r, u, p)
  {
    hide SysInv, Inv, Reached, Seen, Steps, OperandHere, OperandPage, MachineStep, Roomy;
    var first, a := FreeCpu(m, all, r);
    RoomyStays(m, r, a);
    SameOperandPage(r, a, p);
    NotRunning(a.sys, p);
    var last;
    if a.sys.pcbs[p].status.Ready? {
      last, u := StepFromReady(m, all + first, a, p);
      more := first + last;
      assert all + more == all + first + last;
    } else {
      var b := ServeIt(m, all + first, a, p);
      RoomyStays(m, a, b);
      SameOperandPage(r, b, p);
      last, u := StepFromReady(m, all + first + [Serve(p)], b, p);
      more := first + [Serve(p)] + last;
      assert all + more == all + first + [Serve(p)] + last;
    }
  }
}
