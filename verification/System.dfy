/** The whole machine: kernel dispatch (kernel/src/plani.c, exec_pcb), the CPU and paged
    memory, under any schedule, with interrupts and page faults anywhere. */
module System {
  import opened Words
  import opened Paging
  import opened FlatView
  import opened SwapMap
  import opened Lifecycle
  import opened Codec
  import opened Access
  import opened History
  import opened Replacement
  import opened Cpu

  datatype Status = Ready | Running | Blocked(page: nat)

  datatype Pcb = Pcb(ctx: Context, prog: Program, status: Status)

  /** contexto_actual and page_fault in the CPU process. */
  datatype OnCpu = Idle | Busy(ctx: Context, pageFault: bool)

  datatype Sys = Sys(mem: Memory, pcbs: map<nat, Pcb>, cpu: OnCpu)

  datatype Move =
    | Start(pid: nat, pages: nat, prog: Program, ctx: Context)  // iniciar_proceso
    | Dispatch(pid: nat)                                        // exec_pcb sends the context
    | RunCycle                                                  // ejecutar_ciclo_instruccion
    | Interrupt(reason: Word)                                   // the CPU loop sees an interrupt; back to ready
    | ReportFault                                               // the CPU loop sees page_fault
    | Serve(pid: nat)                                           // manejar_pf
    | Return                                                    // a system call that leaves the process alive
    | Finish                                                    // EXIT, or a call the kernel ends the process for

  // -------------------------------------------------------------- the messages

  const CONTEXTO: Int32 := 14

  predicate Sendable(i: RawInstruction) {
    i.Fits() && i.len1 + i.len2 + 52 < 0x8000_0000
  }

  /** enviar_contexto at one end, recibir_operacion and recibir_contexto at the other. */
  function Transmit(c: Context): Option<Context>
    requires Sendable(c.instruction)
  {
    ContextSizeRight(c);
    match TakePacket(EncodePacket(Packet(CONTEXTO, EncodeContext(c))))
    case None => None
    case Some((p, _)) => if p.op == CONTEXTO then DecodeContext(p.body) else None
  }

  /** A context arrives exactly as it was sent. */
  lemma TransmitExact(c: Context)
    requires Sendable(c.instruction)
    ensures Transmit(c) == Some(c)
  {
    hide TakePacket, EncodePacket, EncodeContext, DecodeContext, ContextSize;
    ContextSizeBound(c);
    var p := Packet(CONTEXTO, EncodeContext(c));
    TakePacketBack(p, []);
    assert EncodePacket(p) + [] == EncodePacket(p);
    ContextRoundTrip(c);
  }

  lemma ContextSizeBound(c: Context)
    requires Sendable(c.instruction)
    ensures |EncodeContext(c)| < 0x8000_0000
  {
    ContextSizeRight(c);
  }

  // --------------------------------------------------------------------- moves

  predicate ProgramOk(prog: Program, P: nat) {
    InPage(prog, P) && forall k :: 0 <= k < |prog| ==> Sendable(prog[k].text)
  }

  /** When a move can happen. A started process has a fresh pid and starts at pc 0 with
      whatever its registers hold; the dispatcher skips pids of 100 and more. */
  predicate Enabled(s: Sys, mv: Move) {
    match mv
    case Start(pid, _, prog, ctx) =>
      pid !in s.pcbs && ctx.pid == pid && ctx.pc == 0 && Sendable(ctx.instruction) && ProgramOk(prog, s.mem.pageSize)
    case Dispatch(pid) => s.cpu.Idle? && pid in s.pcbs && s.pcbs[pid].status.Ready? && pid < 100
    case RunCycle => s.cpu.Busy? && !s.cpu.pageFault && !IsSyscall(s.cpu.ctx.lastCode)
    case Interrupt(reason) =>
      s.cpu.Busy? && !s.cpu.pageFault && !IsSyscall(s.cpu.ctx.lastCode)
      && reason in {INTERRUPT_FIN_QUANTUM, INTERRUPT_FIN_PROCESO, INTERRUPT_NUEVO_PROCESO}
    case ReportFault => s.cpu.Busy? && s.cpu.pageFault
    case Serve(pid) => pid in s.pcbs && s.pcbs[pid].status.Blocked?
    case Return =>
      s.cpu.Busy? && !s.cpu.pageFault && IsSyscall(s.cpu.ctx.lastCode) && s.cpu.ctx.lastCode != EXIT
    case Finish => s.cpu.Busy? && !s.cpu.pageFault && IsSyscall(s.cpu.ctx.lastCode)
  }

  ghost predicate SysInv(s: Sys) {
    && Inv(s.mem)
    && (forall p :: p in s.pcbs <==> p in s.mem.count)
    && (forall p :: p in s.pcbs ==> PcbOk(s, p))
    && (s.cpu.Busy? ==> CpuOk(s))
  }

  ghost predicate PcbOk(s: Sys, p: nat)
    requires p in s.pcbs
  {
    var b := s.pcbs[p];
    && b.ctx.pid == p && Sendable(b.ctx.instruction) && ProgramOk(b.prog, s.mem.pageSize)
    && (b.status.Running? <==> s.cpu.Busy? && s.cpu.ctx.pid == p)
    && (b.status.Blocked? ==> Absent(s.mem, p, b.status.page))
  }

  ghost predicate CpuOk(s: Sys)
    requires s.cpu.Busy?
  {
    var c := s.cpu.ctx;
    && c.pid >= 0 && c.pid in s.pcbs && Sendable(c.instruction)
    && (s.cpu.pageFault ==> c.faultPage >= 0 && Absent(s.mem, c.pid, c.faultPage))
  }

  predicate Absent(m: Memory, pid: nat, page: nat) {
    Page(pid, page) in m.ents && !m.ents[Page(pid, page)].present
  }

  /** One move; Crash when some process of the system dies. */
  function Advance(s: Sys, mv: Move): Outcome<Sys>
    requires Inv(s.mem) && Enabled(s, mv)
    requires s.cpu.Busy? ==> s.cpu.ctx.pid >= 0 && s.cpu.ctx.pid in s.pcbs && Sendable(s.cpu.ctx.instruction)
    requires forall p :: p in s.pcbs ==> Sendable(s.pcbs[p].ctx.instruction)
  {
    match mv
    case Start(pid, pages, prog, ctx) =>
      (match Create(s.mem, pid, pages)
       case Crash => Crash
       case Ok(n) => Ok(s.(mem := n, pcbs := s.pcbs[pid := Pcb(ctx, prog, Ready)])))
    case Dispatch(pid) =>
      (match Transmit(s.pcbs[pid].ctx)
       case None => Crash
       case Some(c) => Ok(s.(pcbs := s.pcbs[pid := s.pcbs[pid].(status := Running)],
                             cpu := Busy(c.(lastCode := NO_INSTRUCTION), false))))
    case RunCycle =>
      (match Cycle(s.mem, s.pcbs[s.cpu.ctx.pid].prog, s.cpu.ctx)
       case Crash => Crash
       case Ok(r) => Ok(s.(mem := r.m, cpu := Busy(r.ctx, r.pageFault))))
    case Interrupt(reason) => Leave(s, s.cpu.ctx.(reason := reason), Ready)
    case Return => Leave(s, s.cpu.ctx.(reason := SYSCALL), Ready)
    case ReportFault =>
      if s.cpu.ctx.faultPage < 0 then Crash
      else Leave(s, s.cpu.ctx.(reason := PAGE_FAULT), Blocked(s.cpu.ctx.faultPage))
    case Serve(pid) =>
      (match ServeFault(s.mem, Page(pid, s.pcbs[pid].status.page))
       case Crash => Crash
       case Ok(n) =>
         var b := s.pcbs[pid];
         Ok(s.(mem := n, pcbs := s.pcbs[pid := Pcb(b.ctx.(reason := PAGE_FAULT_RESUELTO), b.prog, Ready)])))
    case Finish =>
      (match Lifecycle.Finish(s.mem, s.cpu.ctx.pid)
       case Crash => Crash
       case Ok(n) => Ok(Sys(n, s.pcbs - {s.cpu.ctx.pid}, Idle)))
  }

  /** The CPU sends its context c back and the kernel stores it. */
  function Leave(s: Sys, c: Context, status: Status): Outcome<Sys>
    requires c.pid >= 0 && c.pid in s.pcbs && Sendable(c.instruction)
  {
    match Transmit(c)
    case None => Crash
    case Some(d) => Ok(s.(pcbs := s.pcbs[c.pid := s.pcbs[c.pid].(ctx := d, status := status)], cpu := Idle))
  }

  // -------------------------------------------------------- what a process sees

  function ContextOf(s: Sys, p: nat): Context
    requires p in s.pcbs
  {
    if s.cpu.Busy? && s.cpu.ctx.pid == p then s.cpu.ctx else s.pcbs[p].ctx
  }

  /** The flat machine process p believes it runs on. */
  ghost function Seen(s: Sys, p: nat): Machine
    requires SysInv(s) && p in s.pcbs
  {
    MachineOf(s.mem, ContextOf(s, p))
  }

  /** The move completes an instruction of p. */
  predicate Completes(s: Sys, mv: Move, t: Sys, p: nat) {
    mv.RunCycle? && s.cpu.Busy? && s.cpu.ctx.pid == p && t.cpu.Busy? && !t.cpu.pageFault
  }

  /** What a move may do to process p: nothing visible, or one flat instruction. */
  ghost predicate MoveRight(s: Sys, mv: Move, t: Sys, p: nat)
    requires SysInv(s) && SysInv(t) && p in s.pcbs && p in t.pcbs
  {
    && t.pcbs[p].prog == s.pcbs[p].prog
    && if Completes(s, mv, t, p) then
         0 <= Seen(s, p).pc < |s.pcbs[p].prog|
         && MachineStep(s.pcbs[p].prog, Seen(s, p))
            == if s.pcbs[p].prog[Seen(s, p).pc].op.Exit? then Halted(Seen(t, p)) else Runs(Seen(t, p))
       else
         Seen(t, p) == Seen(s, p)
  }

  // -------------------------------------------------------------------- proofs

  /** Absent pages stay absent when memory goes from m to n, except page loaded. */
  ghost predicate NothingElseLoaded(m: Memory, n: Memory, pid: nat, page: nat) {
    forall q, i :: Absent(m, q, i) && Page(q, i) != Page(pid, page) ==> Absent(n, q, i)
  }

  lemma CycleLoadsNothing(m: Memory, prog: Program, c: Context)
    requires Inv(m) && Cycle(m, prog, c).Ok?
    ensures var n := Cycle(m, prog, c).value.m;
            (forall q, i :: Absent(m, q, i) ==> Absent(n, q, i)) && n.pageSize == m.pageSize
  {
    hide Inv, Translate, Put, Get, PageAt, Patch, Le, FromLe, Loaded32;
  }

  lemma ServeLoadsOne(m: Memory, pid: nat, page: nat)
    requires Inv(m) && Absent(m, pid, page) && ServeFault(m, Page(pid, page)).Ok?
    ensures NothingElseLoaded(m, ServeFault(m, Page(pid, page)).value, pid, page)
  {
    hide Inv, ServeFault, Replaced, AfterChoice;
    LoadEffect(m, Page(pid, page));
  }

  lemma ServeRight(s: Sys, p: nat)
    requires SysInv(s) && Enabled(s, Serve(p)) && Advance(s, Serve(p)).Ok?
    ensures var t := Advance(s, Serve(p)).value;
            SysInv(t) && t.pcbs.Keys == s.pcbs.Keys && forall q :: q in s.pcbs ==> MoveRight(s, Serve(p), t, q)
  {
    hide Inv, ServeFault, Flat, Contents, Transmit, Sendable, ProgramOk, Cycle, Absent;
    var t := Advance(s, Serve(p)).value;
    var i := s.pcbs[p].status.page;
    assert PcbOk(s, p);
    AbsentFacts(s.mem, p, i);
    ServeFaultKeeps(s.mem, Page(p, i));
    ServeFaultCount(s.mem, Page(p, i));
    ServeLoadsOne(s.mem, p, i);
    forall q | q in t.pcbs ensures PcbOk(t, q) && MoveRight(s, Serve(p), t, q) {
      assert PcbOk(s, q);
      SameContentsFlat(s.mem, t.mem, q);
    }
  }

  lemma AbsentFacts(m: Memory, p: nat, i: nat)
    requires Absent(m, p, i)
    ensures Page(p, i) in m.ents && !m.ents[Page(p, i)].present
  {
  }

  lemma DispatchRight(s: Sys, p: nat)
    requires SysInv(s) && Enabled(s, Dispatch(p))
    ensures Advance(s, Dispatch(p)).Ok?
    ensures var t := Advance(s, Dispatch(p)).value;
            SysInv(t) && t.pcbs.Keys == s.pcbs.Keys && forall q :: q in s.pcbs ==> MoveRight(s, Dispatch(p), t, q)
  {
    hide Inv, Flat, Transmit, Sendable, ProgramOk, Cycle, Absent;
    assert PcbOk(s, p);
    TransmitExact(s.pcbs[p].ctx);
    var t := Advance(s, Dispatch(p)).value;
    forall q | q in t.pcbs ensures PcbOk(t, q) && MoveRight(s, Dispatch(p), t, q) {
      assert PcbOk(s, q);
    }
  }

  /** The motivo_desalojado with which a move sends the context back. */
  function LeaveReason(mv: Move): Word {
    match mv case Interrupt(reason) => reason case Return => SYSCALL case _ => PAGE_FAULT
  }

  lemma LeaveRight(s: Sys, mv: Move)
    requires SysInv(s) && Enabled(s, mv) && (mv.Interrupt? || mv.ReportFault? || mv.Return?)
    ensures Advance(s, mv).Ok?
    ensures var t := Advance(s, mv).value;
            SysInv(t) && t.pcbs.Keys == s.pcbs.Keys && forall q :: q in s.pcbs ==> MoveRight(s, mv, t, q)
  {
    hide Inv, Flat, Transmit, Sendable, ProgramOk, Cycle, Absent;
    TransmitExact(s.cpu.ctx.(reason := LeaveReason(mv)));
    var t := Advance(s, mv).value;
    forall q | q in t.pcbs ensures PcbOk(t, q) && MoveRight(s, mv, t, q) {
      assert PcbOk(s, q);
    }
  }

  lemma RunCycleRight(s: Sys)
    requires SysInv(s) && Enabled(s, RunCycle)
    ensures Advance(s, RunCycle).Crash? <==>
            s.cpu.ctx.pid >= 0 && s.cpu.ctx.pid in s.pcbs
            && MachineStep(s.pcbs[s.cpu.ctx.pid].prog, Seen(s, s.cpu.ctx.pid)).Stuck?
    ensures var r := Advance(s, RunCycle);
            r.Ok? ==> SysInv(r.value) && r.value.pcbs.Keys == s.pcbs.Keys
                      && forall q :: q in s.pcbs ==> MoveRight(s, RunCycle, r.value, q)
  {
    hide Inv, Flat, Cycle, MachineStep, Transmit, Sendable;
    var c, p := s.cpu.ctx, s.cpu.ctx.pid;
    assert PcbOk(s, p);
    var prog := s.pcbs[p].prog;
    CycleRefines(s.mem, prog, c);
    if Advance(s, RunCycle).Ok? {
      var t := Advance(s, RunCycle).value;
      CycleLoadsNothing(s.mem, prog, c);
      CycleSendable(s.mem, prog, c);
      forall q | q in t.pcbs ensures PcbOk(t, q) && MoveRight(s, RunCycle, t, q) {
        assert PcbOk(s, q);
      }
    }
  }

  lemma CycleSendable(m: Memory, prog: Program, c: Context)
    requires Inv(m) && ProgramOk(prog, m.pageSize) && Cycle(m, prog, c).Ok?
    ensures Sendable(Cycle(m, prog, c).value.ctx.instruction)
  {
    hide Inv, Translate, Put, Get, Load, Store, Sendable, Loaded32;
  }

  lemma StartRight(s: Sys, mv: Move)
    requires SysInv(s) && Enabled(s, mv) && mv.Start?
    ensures Advance(s, mv).Ok? <==> mv.pages <= |FreeIds(s.mem.taken, 0)|
    ensures var r := Advance(s, mv);
            r.Ok? ==> SysInv(r.value) && r.value.pcbs.Keys == s.pcbs.Keys + {mv.pid}
                      && forall q :: q in s.pcbs ==> MoveRight(s, mv, r.value, q)
  {
    hide Inv, Create, Flat, Cycle, MachineStep, Transmit, Sendable, ProgramOk, FreshPages, FreeIds;
    CreateKeeps(s.mem, mv.pid, mv.pages);
    if Advance(s, mv).Ok? {
      var t := Advance(s, mv).value;
      CreateFlat(s.mem, mv.pid, mv.pages);
      forall q | q in t.pcbs ensures PcbOk(t, q) {
        assert q in s.pcbs ==> PcbOk(s, q);
      }
      assert SysInv(t);
      forall q | q in s.pcbs ensures MoveRight(s, mv, t, q) {
        StartedBeside(s, mv, t, q);
      }
    }
  }

  lemma StartedBeside(s: Sys, mv: Move, t: Sys, q: nat)
    requires SysInv(s) && SysInv(t) && mv.Start? && mv.pid !in s.pcbs && q in s.pcbs && q in t.pcbs
    requires t.pcbs[q] == s.pcbs[q] && t.cpu == s.cpu
    requires q in s.mem.count && q in t.mem.count && Inv(s.mem) && Inv(t.mem) && Flat(t.mem, q) == Flat(s.mem, q)
    ensures MoveRight(s, mv, t, q)
  {
    hide Inv, Flat, MachineStep, Sendable, ProgramOk;
  }

  lemma CreateFlat(m: Memory, pid: nat, pages: nat)
    requires Inv(m) && pid !in m.count && Create(m, pid, pages).Ok?
    ensures var n := Create(m, pid, pages).value;
            && Inv(n) && n.count == m.count[pid := pages] && n.pageSize == m.pageSize
            && (forall p :: p in m.count ==> Flat(n, p) == Flat(m, p))
            && (forall q, i :: Absent(m, q, i) ==> Absent(n, q, i))
  {
    hide Inv, Contents, FreshPages, FreeIds, NewEntries, Reserve, Create;
    CreateKeeps(m, pid, pages);
    StepEffect(m, Begin(pid, pages));
    CreateShape(m, pid, pages);
    var n := Create(m, pid, pages).value;
    forall p | p in m.count ensures Flat(n, p) == Flat(m, p) {
      FlatAgree(m, n, p);
    }
  }

  lemma CreateShape(m: Memory, pid: nat, pages: nat)
    requires Create(m, pid, pages).Ok?
    ensures Create(m, pid, pages).value.pageSize == m.pageSize
  {
  }

  lemma FinishFlat(m: Memory, pid: nat)
    requires Inv(m) && pid in m.count
    ensures var r := Lifecycle.Finish(m, pid);
            && r.Ok? && Inv(r.value) && r.value.count == m.count - {pid} && r.value.pageSize == m.pageSize
            && (forall p :: p in r.value.count ==> Flat(r.value, p) == Flat(m, p))
            && (forall q, i :: Absent(m, q, i) && q != pid ==> Absent(r.value, q, i))
  {
    hide Inv, Contents, Lifecycle.Finish, Shape, Tables;
    InvShape(m);
    FinishKeeps(m, pid);
    var n := Lifecycle.Finish(m, pid).value;
    forall p | p in n.count ensures Flat(n, p) == Flat(m, p) {
      FlatAgree(n, m, p);
    }
  }

  lemma FinishRight(s: Sys)
    requires SysInv(s) && Enabled(s, Move.Finish)
    ensures Advance(s, Move.Finish).Ok?
    ensures var t := Advance(s, Move.Finish).value;
            SysInv(t) && s.cpu.ctx.pid >= 0 && t.pcbs.Keys == s.pcbs.Keys - {s.cpu.ctx.pid}
            && forall q :: q in t.pcbs ==> MoveRight(s, Move.Finish, t, q)
  {
    hide Inv, Lifecycle.Finish, Flat, Cycle, MachineStep, Transmit, Sendable, ProgramOk;
    FinishFlat(s.mem, s.cpu.ctx.pid);
    var t := Advance(s, Move.Finish).value;
    forall q | q in t.pcbs ensures PcbOk(t, q) && MoveRight(s, Move.Finish, t, q) {
      assert PcbOk(s, q);
    }
  }

  /** Every move keeps the system invariant, and does to every process that lives
      through it nothing visible or exactly one instruction of its flat machine. */
  lemma StepRight(s: Sys, mv: Move)
    requires SysInv(s) && Enabled(s, mv)
    requires StepDefined(s, mv) && Advance(s, mv).Ok?
    ensures var t := Advance(s, mv).value;
            SysInv(t) && forall q :: q in s.pcbs && q in t.pcbs ==> MoveRight(s, mv, t, q)
  {
    hide Inv, MoveRight, Advance, Enabled;
    match mv
    case Start(_, _, _, _) => StartRight(s, mv);
    case Dispatch(p) => DispatchRight(s, p);
    case RunCycle => RunCycleRight(s);
    case Interrupt(_) => LeaveRight(s, mv);
    case Return => LeaveRight(s, mv);
    case ReportFault => LeaveRight(s, mv);
    case Serve(p) => ServeRight(s, p);
    case Finish => FinishRight(s);
  }

  ghost predicate StepDefined(s: Sys, mv: Move) {
    && Inv(s.mem)
    && (s.cpu.Busy? ==> s.cpu.ctx.pid >= 0 && s.cpu.ctx.pid in s.pcbs && Sendable(s.cpu.ctx.instruction))
    && (forall p :: p in s.pcbs ==> Sendable(s.pcbs[p].ctx.instruction))
  }
}
