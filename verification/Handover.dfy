/** What the kernel keeps of each process after a move, and what the CPU then holds: contexts
    change hands whole, but for the fields named here. */
module Handover {
  import opened Codec
  import opened Cpu
  import opened System
  import opened WireFormat

  /** p has this context and status; everybody else is as before. */
  ghost predicate Keeps(s: Sys, t: Sys, p: nat, ctx: Context, status: Status) {
    && p in s.pcbs && t.pcbs.Keys == s.pcbs.Keys && t.pcbs[p] == Pcb(ctx, s.pcbs[p].prog, status)
    && forall q :: q in s.pcbs && q != p ==> t.pcbs[q] == s.pcbs[q]
  }

  /** The reasons: an interrupt's own number (0 to 2), 3 for a system call, 4 for a page fault, 5
      once it has been served. A dispatched context has no last instruction. */
  ghost predicate HandsOver(s: Sys, mv: Move, t: Sys) {
    match mv
    case Start(p, _, prog, ctx) => t.cpu == s.cpu && p !in s.pcbs && t.pcbs == s.pcbs[p := Pcb(ctx, prog, Ready)]
    case Dispatch(p) =>
      p in s.pcbs && Keeps(s, t, p, s.pcbs[p].ctx, Running)
      && t.cpu == Busy(s.pcbs[p].ctx.(lastCode := 0xFFFF_FFFF), false)
    case RunCycle => t.pcbs == s.pcbs && t.cpu.Busy? && s.cpu.Busy? && t.cpu.ctx.pid == s.cpu.ctx.pid
    case Interrupt(n) => t.cpu == Idle && s.cpu.Busy? && n < 3 && s.cpu.ctx.pid >= 0
                         && Keeps(s, t, s.cpu.ctx.pid, s.cpu.ctx.(reason := n), Ready)
    case Return => t.cpu == Idle && s.cpu.Busy? && s.cpu.ctx.pid >= 0
                   && Keeps(s, t, s.cpu.ctx.pid, s.cpu.ctx.(reason := 3), Ready)
    case ReportFault => t.cpu == Idle && s.cpu.Busy? && s.cpu.ctx.pid >= 0 && s.cpu.ctx.faultPage >= 0
                        && Keeps(s, t, s.cpu.ctx.pid, s.cpu.ctx.(reason := 4), Blocked(s.cpu.ctx.faultPage))
    case Serve(p) => t.cpu == s.cpu && p in s.pcbs && Keeps(s, t, p, s.pcbs[p].ctx.(reason := 5), Ready)
    case Finish => t.cpu == Idle && s.cpu.Busy? && s.cpu.ctx.pid >= 0 && t.pcbs == s.pcbs - {s.cpu.ctx.pid}
  }

  lemma MoveHandsOver(s: Sys, mv: Move)
    requires SysInv(s) && Enabled(s, mv) && StepDefined(s, mv) && Advance(s, mv).Ok?
    ensures HandsOver(s, mv, Advance(s, mv).value)
  {
    hide SysInv, Transmit, Sendable, ProgramOk, Cycle;
    match mv
    case Dispatch(p) => TransmitExact(s.pcbs[p].ctx);
    case Interrupt(n) => TransmitExact(s.cpu.ctx.(reason := n));
    case Return => TransmitExact(s.cpu.ctx.(reason := SYSCALL));
    case ReportFault =>
      FaultNamedOnCpu(s);
      TransmitExact(s.cpu.ctx.(reason := PAGE_FAULT));
    case RunCycle => CyclePid(s);
    case _ =>
  }

  lemma FaultNamedOnCpu(s: Sys)
    requires SysInv(s) && s.cpu.Busy? && s.cpu.pageFault
    ensures s.cpu.ctx.faultPage >= 0
  {
  }

  lemma CyclePid(s: Sys)
    requires SysInv(s) && Enabled(s, RunCycle) && StepDefined(s, RunCycle) && Advance(s, RunCycle).Ok?
    ensures Advance(s, RunCycle).value.cpu.Busy? && Advance(s, RunCycle).value.cpu.ctx.pid == s.cpu.ctx.pid
  {
    hide SysInv, Put, Get, Translate, Loaded32;
  }

  /** A context on its way: the packet of operation 14 whose body is the context. */
  lemma ContextOnTheWire(c: Context)
    requires Sendable(c.instruction)
    ensures |EncodeContext(c)| < 0x8000_0000
    ensures var e := EncodePacket(Packet(CONTEXTO, EncodeContext(c)));
            IntIn(e, 0, 14) && IntIn(e, 4, |EncodeContext(c)|) && Part(e, 8, EncodeContext(c))
  {
    hide EncodePacket, EncodeContext, IntIn, Part;
    ContextSizeBound(c);
    PacketLayout(Packet(CONTEXTO, EncodeContext(c)));
  }
}
