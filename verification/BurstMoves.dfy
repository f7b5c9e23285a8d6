/** The CPU's loop and the moves of the system are the same thing: attending to a context is a
    dispatch, one move for each cycle, and the move that sends the context back. */
module BurstMoves {
  import opened Words
  import opened Paging
  import opened Codec
  import opened Cpu
  import opened Bursts
  import opened System
  import opened Schedules
  import opened Operands
  import opened Restarts
  import opened Progress

  function Repeat(n: nat): (mvs: seq<Move>)
    ensures |mvs| == n
  {
    if n == 0 then [] else Repeat(n - 1) + [RunCycle]
  }

  /** n cycles of the loop, none of which stops it before the last, are n moves. */
  lemma {:induction false} CyclesAreMoves(m: Memory, all: seq<Move>, r: Recorded, prog: Program, c: Context,
                                          arrivals: seq<seq<Reason>>, n: nat) returns (u: Recorded)
    requires Reached(m, all, r) && SysInv(r.sys) && Inv(r.sys.mem) && r.sys.cpu == Busy(c, false)
    requires c.pid >= 0 && c.pid in r.sys.pcbs && r.sys.pcbs[c.pid].prog == prog && n <= |arrivals|
    requires forall j :: 0 <= j < n ==> GoesOn(r.sys.mem, prog, c, arrivals, j)
    requires Cycles(r.sys.mem, prog, c, n).Ok?
    ensures Reached(m, all + Repeat(n), u) && SysInv(u.sys) && u.sys.pcbs == r.sys.pcbs
    ensures var f := Cycles(r.sys.mem, prog, c, n).value; u.sys.mem == f.m && u.sys.cpu == Busy(f.ctx, f.pageFault)
    ensures u.sys.cpu.ctx.pid == c.pid
  {
    hide SysInv, Inv, Reached, Cycle, Seen, MoveDoes, Steps, Pending, AnyArrived;
    if n == 0 {
      u := r;
      assert all + Repeat(0) == all;
    } else {
      assert GoesOn(r.sys.mem, prog, c, arrivals, n - 1);
      var v := CyclesAreMoves(m, all, r, prog, c, arrivals, n - 1);
      var t := OneCycle(v.sys, r.sys.mem, prog, c, n);
      u := Go(m, all + Repeat(n - 1), v, RunCycle, t);
      assert all + Repeat(n) == all + Repeat(n - 1) + [RunCycle];
    }
  }

  lemma OneCycle(s: Sys, m: Memory, prog: Program, c: Context, n: nat) returns (t: Sys)
    requires SysInv(s) && Inv(m) && n > 0 && Cycles(m, prog, c, n - 1).Ok? && !Stops(Cycles(m, prog, c, n - 1).value)
    requires var f := Cycles(m, prog, c, n - 1).value; s.mem == f.m && s.cpu == Busy(f.ctx, f.pageFault)
    requires s.cpu.ctx.pid >= 0 && s.cpu.ctx.pid in s.pcbs && s.pcbs[s.cpu.ctx.pid].prog == prog
    requires Cycles(m, prog, c, n).Ok?
    ensures Enabled(s, RunCycle) && StepDefined(s, RunCycle) && Advance(s, RunCycle) == Ok(t)
    ensures t.pcbs == s.pcbs && t.cpu.Busy? && t.cpu.ctx.pid == s.cpu.ctx.pid
    ensures var f := Cycles(m, prog, c, n).value; t.mem == f.m && t.cpu == Busy(f.ctx, f.pageFault)
  {
    hide SysInv, Inv, Cycle, Sendable;
    SysDefined(s, RunCycle);
    CycleShape(s);
    t := Advance(s, RunCycle).value;
  }

  /** The move with which a burst that ended in f leaves the CPU. */
  function LeaveBy(f: Cycled, arrivals: seq<seq<Reason>>): Move {
    if f.pageFault then ReportFault
    else if f.ctx.lastCode == EXIT then Move.Finish
    else if IsSyscall(f.ctx.lastCode) then Return
    else Interrupt(Motive(f, arrivals))
  }

  /** The context the CPU sends back is the one the kernel keeps. */
  lemma LeaveIsMove(s: Sys, f: Cycled, arrivals: seq<seq<Reason>>)
    requires SysInv(s) && s.mem == f.m && s.cpu == Busy(f.ctx, f.pageFault) && (Stops(f) || AnyArrived(arrivals))
    ensures var mv := LeaveBy(f, arrivals);
            && Enabled(s, mv) && StepDefined(s, mv) && Advance(s, mv).Ok?
            && var t := Advance(s, mv).value;
               && t.cpu.Idle? && f.ctx.pid >= 0 && (mv.Finish? ==> t.pcbs == s.pcbs - {f.ctx.pid})
               && (!mv.Finish? ==>
                     && t.mem == f.m && f.ctx.pid in t.pcbs
                     && t.pcbs[f.ctx.pid].ctx == f.ctx.(reason := Motive(f, arrivals)))
  {
    hide SysInv, Inv, Advance, Enabled, Arrived, Sendable;
    var mv := LeaveBy(f, arrivals);
    LeaveEnabled(s, f, arrivals);
    SysDefined(s, mv);
    if mv.Finish? {
      FinishShape(s);
    } else {
      LeaveShape(s, mv);
    }
  }

  lemma LeaveEnabled(s: Sys, f: Cycled, arrivals: seq<seq<Reason>>)
    requires SysInv(s) && s.cpu == Busy(f.ctx, f.pageFault) && (Stops(f) || AnyArrived(arrivals))
    ensures Enabled(s, LeaveBy(f, arrivals)) && f.ctx.pid >= 0
    ensures !LeaveBy(f, arrivals).Finish? ==>
              var mv := LeaveBy(f, arrivals);
              (mv.Interrupt? || mv.ReportFault? || mv.Return?) && LeaveReason(mv) == Motive(f, arrivals)
  {
    hide Inv, Sendable, Arrived;
  }

  lemma FinishShape(s: Sys)
    requires SysInv(s) && Enabled(s, Move.Finish) && StepDefined(s, Move.Finish)
    ensures Advance(s, Move.Finish).Ok?
    ensures Advance(s, Move.Finish).value.cpu.Idle?
    ensures Advance(s, Move.Finish).value.pcbs == s.pcbs - {s.cpu.ctx.pid}
  {
    hide Inv, SysInv, Lifecycle.Finish, Sendable;
    FinishRight(s);
  }

  lemma FaultNamed(s: Sys, mv: Move)
    requires SysInv(s) && Enabled(s, mv) && mv.ReportFault?
    ensures s.cpu.ctx.faultPage >= 0
  {
    hide Inv, Sendable;
  }

  lemma LeaveShape(s: Sys, mv: Move)
    requires SysInv(s) && Enabled(s, mv) && StepDefined(s, mv) && (mv.Interrupt? || mv.ReportFault? || mv.Return?)
    ensures Advance(s, mv).Ok?
    ensures var (t, c) := (Advance(s, mv).value, s.cpu.ctx);
            t.cpu.Idle? && t.mem == s.mem && c.pid >= 0 && c.pid in t.pcbs && t.pcbs[c.pid].ctx == c.(reason := LeaveReason(mv))
  {
    hide Inv, SysInv, Transmit, Sendable;
    if mv.ReportFault? {
      FaultNamed(s, mv);
    }
    TransmitExact(s.cpu.ctx.(reason := LeaveReason(mv)));
  }

  /** A burst of the CPU on the context of a ready process, as its loop runs it: dispatch,
      n cycles, and the leaving move are a run of the system; it ends with the CPU free and,
      unless the process has ended, with the memory and the context that the loop leaves. */
  lemma BurstIsMoves(m: Memory, all: seq<Move>, r: Recorded, p: nat, arrivals: seq<seq<Reason>>, n: nat)
      returns (u: Recorded)
    requires Reached(m, all, r) && SysInv(r.sys) && Inv(r.sys.mem) && r.sys.cpu.Idle?
    requires p in r.sys.pcbs && p < 100 && r.sys.pcbs[p].status.Ready?
    requires EndsAt(r.sys.mem, r.sys.pcbs[p].prog, r.sys.pcbs[p].ctx.(lastCode := NO_INSTRUCTION), arrivals, n)
    ensures var f := Cycles(r.sys.mem, r.sys.pcbs[p].prog, r.sys.pcbs[p].ctx.(lastCode := NO_INSTRUCTION), n).value;
            var mv := LeaveBy(f, arrivals[..n + 1]);
            && Reached(m, all + [Dispatch(p)] + Repeat(n) + [mv], u) && u.sys.cpu.Idle? && f.ctx.pid == p
            && (mv.Finish? ==> u.sys.pcbs.Keys == r.sys.pcbs.Keys - {p})
            && (!mv.Finish? ==>
                  && u.sys.mem == f.m && p in u.sys.pcbs
                  && u.sys.pcbs[p].ctx == f.ctx.(reason := Motive(f, arrivals[..n + 1]))
                  && Explains(f, arrivals[..n + 1], u.sys.pcbs[p].ctx.reason))
            && (mv.Interrupt? ==> Explains(f, arrivals[..n + 1], mv.reason))
            && (mv.ReportFault? <==> f.pageFault) && (mv.Finish? <==> !f.pageFault && f.ctx.lastCode == 16)
            && (mv.Return? <==> !f.pageFault && f.ctx.lastCode in {4, 5, 6, 9, 11, 12, 13, 14, 15})
  {
    hide SysInv, Inv, Reached, Cycles, Seen, MoveDoes, Steps, Pending, Motive, GoesOn, AnyArrived, Stops;
    var c, prog := r.sys.pcbs[p].ctx.(lastCode := NO_INSTRUCTION), r.sys.pcbs[p].prog;
    var t := Dispatched(r.sys, p);
    var a := Go(m, all, r, Dispatch(p), t);
    var b := CyclesAreMoves(m, all + [Dispatch(p)], a, prog, c, arrivals, n);
    var f := Cycles(r.sys.mem, prog, c, n).value;
    LeaveIsMove(b.sys, f, arrivals[..n + 1]);
    OnCpuPid(b.sys, a.sys, p);
    u := Go(m, all + [Dispatch(p)] + Repeat(n), b, LeaveBy(f, arrivals[..n + 1]),
            Advance(b.sys, LeaveBy(f, arrivals[..n + 1])).value);
  }

  lemma Dispatched(s: Sys, p: nat) returns (t: Sys)
    requires SysInv(s) && s.cpu.Idle? && p in s.pcbs && p < 100 && s.pcbs[p].status.Ready?
    ensures Enabled(s, Dispatch(p)) && StepDefined(s, Dispatch(p)) && Advance(s, Dispatch(p)) == Ok(t)
    ensures t.cpu == Busy(s.pcbs[p].ctx.(lastCode := NO_INSTRUCTION), false) && t.mem == s.mem && Beside(s, t, p)
    ensures t.pcbs[p].prog == s.pcbs[p].prog && t.pcbs[p].status.Running? && s.pcbs[p].ctx.pid == p
  {
    hide Inv, Transmit, Sendable, ProgramOk;
    SysDefined(s, Dispatch(p));
    assert PcbOk(s, p);
    TransmitExact(s.pcbs[p].ctx);
    t := Advance(s, Dispatch(p)).value;
  }

  lemma OnCpuPid(s: Sys, a: Sys, p: nat)
    requires SysInv(s) && s.cpu.Busy? && s.pcbs == a.pcbs && p in a.pcbs && a.pcbs[p].status.Running?
    ensures s.cpu.ctx.pid == p
  {
    hide Inv;
    assert PcbOk(s, p);
  }
}
