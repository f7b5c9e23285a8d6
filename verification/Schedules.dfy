/** Any schedule: whatever the interleaving of starts, dispatches, interrupts, page faults
    and exits, each process goes through the states of its program run alone on a machine
    with one flat memory. */
module Schedules {
  import opened Words
  import opened Paging
  import opened SwapMap
  import opened Lifecycle
  import opened History
  import opened Cpu
  import opened System

  /** states are the successive states of prog run alone, up to and including the one
      EXIT leaves. */
  ghost predicate SoloRun(prog: Program, states: seq<Machine>) {
    && |states| > 0
    && forall k :: 0 <= k < |states| - 1 ==> SoloStep(prog, states, k)
  }

  ghost predicate SoloStep(prog: Program, states: seq<Machine>, k: nat)
    requires k < |states| - 1
  {
    && 0 <= states[k].pc < |prog|
    && (prog[states[k].pc].op.Exit? ==> k == |states| - 2)
    && MachineStep(prog, states[k])
       == if prog[states[k].pc].op.Exit? then Halted(states[k + 1]) else Runs(states[k + 1])
  }

  /** A system together with what each process has been seen to do so far. */
  datatype Recorded = Recorded(sys: Sys, progs: map<nat, Program>, traces: map<nat, seq<Machine>>)

  ghost function Record(r: Recorded, mv: Move): Outcome<Recorded>
    requires SysInv(r.sys)
  {
    if !Enabled(r.sys, mv) || (mv.Start? && mv.pid in r.traces) then Crash
    else
      SysDefined(r.sys, mv);
      match Advance(r.sys, mv)
      case Crash => Crash
      case Ok(t) =>
        StepRight(r.sys, mv);
        if mv.Start? then
          StartedPid(r.sys, mv);
          Ok(Recorded(t, r.progs[mv.pid := mv.prog], r.traces[mv.pid := [Seen(t, mv.pid)]]))
        else if mv.RunCycle? && t.cpu.Busy? && !t.cpu.pageFault && CpuPid(t) in r.traces && CpuPid(t) in t.pcbs then
          var p := CpuPid(t);
          Ok(Recorded(t, r.progs, r.traces[p := r.traces[p] + [Seen(t, p)]]))
        else Ok(r.(sys := t))
  }

  function CpuPid(s: Sys): nat
    requires s.cpu.Busy?
  {
    if s.cpu.ctx.pid < 0 then 0 else s.cpu.ctx.pid
  }

  lemma SysDefined(s: Sys, mv: Move)
    requires SysInv(s)
    ensures StepDefined(s, mv) && Inv(s.mem)
  {
    hide Inv, Sendable, ProgramOk;
    forall p | p in s.pcbs ensures Sendable(s.pcbs[p].ctx.instruction) {
      assert PcbOk(s, p);
    }
  }

  lemma StartedPid(s: Sys, mv: Move)
    requires SysInv(s) && mv.Start? && Enabled(s, mv) && StepDefined(s, mv) && Advance(s, mv).Ok?
    ensures mv.pid in Advance(s, mv).value.pcbs
  {
    hide Inv, Create, Sendable;
  }

  /** The last step of the trace was EXIT. */
  predicate Ended(prog: Program, states: seq<Machine>) {
    |states| >= 2 && 0 <= states[|states| - 2].pc < |prog| && prog[states[|states| - 2].pc].op.Exit?
  }

  ghost predicate RecInv(r: Recorded) {
    && SysInv(r.sys) && r.progs.Keys == r.traces.Keys
    && (forall p :: p in r.traces ==> SoloRun(r.progs[p], r.traces[p]))
    && (forall p :: p in r.sys.pcbs ==> Follows(r, p))
  }

  /** The trace of a live process ends where the process is now. */
  ghost predicate Follows(r: Recorded, p: nat)
    requires SysInv(r.sys) && p in r.sys.pcbs && r.progs.Keys == r.traces.Keys
  {
    && p in r.traces && |r.traces[p]| > 0
    && r.progs[p] == r.sys.pcbs[p].prog
    && r.traces[p][|r.traces[p]| - 1] == Seen(r.sys, p)
    && (Ended(r.progs[p], r.traces[p]) ==> AtExit(r.sys, p))
  }

  predicate AtExit(s: Sys, p: nat) {
    s.cpu.Busy? && !s.cpu.pageFault && s.cpu.ctx.pid == p && s.cpu.ctx.lastCode == EXIT
  }

  lemma AppendSolo(prog: Program, states: seq<Machine>, next: Machine)
    requires SoloRun(prog, states) && !Ended(prog, states)
    requires var s := states[|states| - 1];
             0 <= s.pc < |prog|
             && MachineStep(prog, s) == if prog[s.pc].op.Exit? then Halted(next) else Runs(next)
    ensures SoloRun(prog, states + [next])
  {
    hide MachineStep;
    var longer := states + [next];
    forall k | 0 <= k < |longer| - 1 ensures SoloStep(prog, longer, k) {
      if k < |states| - 1 {
        assert SoloStep(prog, states, k);
        assert k == |states| - 2 ==> !prog[states[k].pc].op.Exit?;
      }
    }
  }

  /** A completed cycle of a process whose last instruction was EXIT leaves EXIT as the
      last code, and no other move touches it. */
  lemma ExitStays(s: Sys, mv: Move, p: nat)
    requires SysInv(s) && Enabled(s, mv) && StepDefined(s, mv) && Advance(s, mv).Ok? && AtExit(s, p)
    requires p in Advance(s, mv).value.pcbs
    ensures AtExit(Advance(s, mv).value, p)
  {
    hide Inv, Create, ServeFault, Transmit, Sendable, Lifecycle.Finish;
  }

  lemma ExitReached(s: Sys)
    requires SysInv(s) && Enabled(s, RunCycle) && StepDefined(s, RunCycle) && Advance(s, RunCycle).Ok?
    requires s.cpu.ctx.pid >= 0 && s.cpu.ctx.pid in s.pcbs
    requires var prog := s.pcbs[s.cpu.ctx.pid].prog;
             0 <= s.cpu.ctx.pc < |prog| && prog[s.cpu.ctx.pc].op.Exit?
    ensures AtExit(Advance(s, RunCycle).value, s.cpu.ctx.pid)
  {
    hide Inv;
  }

  lemma RecordStarts(r: Recorded, mv: Move)
    requires RecInv(r) && Record(r, mv).Ok? && mv.Start?
    ensures RecInv(Record(r, mv).value)
  {
    hide Inv, MachineStep, Enabled, Seen, Advance, MoveRight;
    SysDefined(r.sys, mv);
    StepRight(r.sys, mv);
    StartShape(r.sys, mv);
    var u := Record(r, mv).value;
    forall p | p in u.sys.pcbs ensures Follows(u, p) {
      if p != mv.pid {
        assert Follows(r, p) && MoveRight(r.sys, mv, u.sys, p);
        StaysPut(r.sys, mv, p);
      }
    }
  }

  lemma StartShape(s: Sys, mv: Move)
    requires SysInv(s) && mv.Start? && Enabled(s, mv) && StepDefined(s, mv) && Advance(s, mv).Ok?
    ensures Advance(s, mv).value.pcbs.Keys == s.pcbs.Keys + {mv.pid} && mv.pid !in s.pcbs
    ensures Advance(s, mv).value.pcbs[mv.pid].prog == mv.prog
  {
    hide Inv, Create, Sendable;
  }

  /** A process the move does not complete an instruction of stays as it was. */
  lemma StaysPut(s: Sys, mv: Move, p: nat)
    requires SysInv(s) && Enabled(s, mv) && StepDefined(s, mv) && Advance(s, mv).Ok?
    requires p in s.pcbs && p in Advance(s, mv).value.pcbs && SysInv(Advance(s, mv).value)
    requires MoveRight(s, mv, Advance(s, mv).value, p) && !Completes(s, mv, Advance(s, mv).value, p)
    ensures Advance(s, mv).value.pcbs[p].prog == s.pcbs[p].prog
    ensures Seen(Advance(s, mv).value, p) == Seen(s, p)
    ensures AtExit(s, p) ==> AtExit(Advance(s, mv).value, p)
  {
    hide Inv, Enabled, Seen, Advance, MachineStep;
    if AtExit(s, p) {
      ExitStays(s, mv, p);
    }
  }

  /** What a completed cycle of p adds to the record. */
  lemma RecordedCycle(r: Recorded, p: nat)
    requires SysInv(r.sys) && Record(r, RunCycle).Ok? && p in r.sys.pcbs && p in r.traces
    requires Completes(r.sys, RunCycle, Record(r, RunCycle).value.sys, p)
    ensures Enabled(r.sys, RunCycle) && StepDefined(r.sys, RunCycle) && Advance(r.sys, RunCycle).Ok?
    ensures var u := Record(r, RunCycle).value;
            && u.sys == Advance(r.sys, RunCycle).value && SysInv(u.sys) && u.sys.pcbs == r.sys.pcbs
            && MoveRight(r.sys, RunCycle, u.sys, p) && u.progs == r.progs
            && u.traces == r.traces[p := r.traces[p] + [Seen(u.sys, p)]]
  {
    hide Seen, Advance, MoveRight, SysInv;
    SysDefined(r.sys, RunCycle);
    StepRight(r.sys, RunCycle);
    CycleShape(r.sys);
  }

  /** The process that completed an instruction follows its longer trace. */
  lemma CompletedFollows(r: Recorded, u: Recorded, p: nat)
    requires RecInv(r) && p in r.sys.pcbs && p in r.traces && Enabled(r.sys, RunCycle) && StepDefined(r.sys, RunCycle)
    requires Advance(r.sys, RunCycle) == Ok(u.sys) && SysInv(u.sys) && u.sys.pcbs == r.sys.pcbs
    requires MoveRight(r.sys, RunCycle, u.sys, p) && Completes(r.sys, RunCycle, u.sys, p)
    requires u.progs == r.progs && u.traces == r.traces[p := r.traces[p] + [Seen(u.sys, p)]]
    ensures p in u.progs && SoloRun(u.progs[p], u.traces[p]) && Follows(u, p)
  {
    hide SysInv, MachineStep, Seen, Advance;
    var s := r.sys;
    assert Follows(r, p);
    assert !Ended(r.progs[p], r.traces[p]);
    SeenPc(s, p);
    AppendSolo(r.progs[p], r.traces[p], Seen(u.sys, p));
    if r.progs[p][Seen(s, p).pc].op.Exit? {
      ExitReached(s);
    }
  }

  lemma RecordCompletes(r: Recorded, p: nat)
    requires RecInv(r) && Record(r, RunCycle).Ok? && p in r.sys.pcbs
    requires Completes(r.sys, RunCycle, Record(r, RunCycle).value.sys, p)
    ensures RecInv(Record(r, RunCycle).value)
  {
    hide SysInv, Record, Seen, Advance, SoloRun, MachineStep;
    assert Follows(r, p);
    RecordedCycle(r, p);
    var u := Record(r, RunCycle).value;
    CompletedFollows(r, u, p);
    StepRight(r.sys, RunCycle);
    forall q | q in u.sys.pcbs ensures Follows(u, q) {
      if q != p {
        assert Follows(r, q) && MoveRight(r.sys, RunCycle, u.sys, q);
        StaysPut(r.sys, RunCycle, q);
      }
    }
  }

  lemma CycleShape(s: Sys)
    requires SysInv(s) && Enabled(s, RunCycle) && StepDefined(s, RunCycle) && Advance(s, RunCycle).Ok?
    ensures Advance(s, RunCycle).value.pcbs == s.pcbs && Advance(s, RunCycle).value.cpu.Busy?
    ensures Advance(s, RunCycle).value.cpu.ctx.pid == s.cpu.ctx.pid
  {
    hide Inv, Cycle, MachineStep;
    assert PcbOk(s, s.cpu.ctx.pid);
    CycleRefines(s.mem, s.pcbs[s.cpu.ctx.pid].prog, s.cpu.ctx);
  }

  lemma SeenPc(s: Sys, p: nat)
    requires SysInv(s) && s.cpu.Busy? && s.cpu.ctx.pid == p && p in s.pcbs
    ensures Seen(s, p).pc == s.cpu.ctx.pc
  {
    hide Inv;
  }

  lemma RecordQuiet(r: Recorded, mv: Move)
    requires RecInv(r) && Record(r, mv).Ok? && !mv.Start?
    requires forall p :: p in r.sys.pcbs ==> !Completes(r.sys, mv, Record(r, mv).value.sys, p)
    ensures RecInv(Record(r, mv).value)
  {
    hide Inv, MachineStep, Seen, Advance, Enabled;
    var s, u := r.sys, Record(r, mv).value;
    SysDefined(s, mv);
    StepRight(s, mv);
    FewerPcbs(s, mv);
    forall q | q in u.sys.pcbs ensures Follows(u, q) {
      assert Follows(r, q) && MoveRight(s, mv, u.sys, q);
      StaysPut(s, mv, q);
    }
  }

  lemma FewerPcbs(s: Sys, mv: Move)
    requires SysInv(s) && Enabled(s, mv) && StepDefined(s, mv) && Advance(s, mv).Ok? && !mv.Start?
    ensures Advance(s, mv).value.pcbs.Keys <= s.pcbs.Keys
    ensures mv.RunCycle? ==>
              (s.cpu.Busy? && Advance(s, mv).value.cpu.Busy? && Advance(s, mv).value.cpu.ctx.pid == s.cpu.ctx.pid)
  {
    hide Inv, Cycle, Transmit, ServeFault, Lifecycle.Finish, Sendable;
    if mv.RunCycle? {
      CycleShape(s);
    }
  }

  lemma RecordKeeps(r: Recorded, mv: Move)
    requires RecInv(r) && Record(r, mv).Ok?
    ensures RecInv(Record(r, mv).value)
  {
    hide Inv, RecInv, Record;
    assert SysInv(r.sys) by { RecSys(r); }
    if mv.Start? {
      RecordStarts(r, mv);
    } else if p: nat :| p in r.sys.pcbs && Completes(r.sys, mv, Record(r, mv).value.sys, p) {
      RecordCompletes(r, p);
    } else {
      RecordQuiet(r, mv);
    }
  }

  lemma RecSys(r: Recorded)
    requires RecInv(r)
    ensures SysInv(r.sys)
  {
  }

  // -------------------------------------------------------------- main theorems

  ghost function RunMoves(r: Recorded, mvs: seq<Move>): Outcome<Recorded> {
    if mvs == [] then Ok(r)
    else match RunMoves(r, mvs[..|mvs| - 1])
      case Crash => Crash
      case Ok(u) => if !SysInv(u.sys) then Crash else Record(u, mvs[|mvs| - 1])
  }

  /** A run one move longer is the run and that move. */
  lemma LastMove(r: Recorded, mvs: seq<Move>, mv: Move)
    ensures RunMoves(r, mvs + [mv]).Ok? <==>
            RunMoves(r, mvs).Ok? && SysInv(RunMoves(r, mvs).value.sys) && Record(RunMoves(r, mvs).value, mv).Ok?
    ensures RunMoves(r, mvs + [mv]).Ok? ==>
              var u := RunMoves(r, mvs).value;
              && RunMoves(r, mvs + [mv]) == Record(u, mv) && Enabled(u.sys, mv) && StepDefined(u.sys, mv)
              && Advance(u.sys, mv) == Ok(Record(u, mv).value.sys)
  {
    hide SysInv, Enabled, Advance, Seen, StepDefined;
    assert (mvs + [mv])[..|mvs|] == mvs;
    if RunMoves(r, mvs).Ok? && SysInv(RunMoves(r, mvs).value.sys) {
      SysDefined(RunMoves(r, mvs).value.sys, mv);
    }
  }

  /** A freshly booted system: no process, all memory and swap free, CPU idle. */
  ghost function Boot(m: Memory): Recorded {
    Recorded(Sys(m, map[], Idle), map[], map[])
  }

  lemma BootInv(m: Memory)
    requires Initial(m)
    ensures RecInv(Boot(m))
  {
    InitialInv(m);
  }

  lemma {:induction false} RunKeepsRec(r: Recorded, mvs: seq<Move>)
    requires RecInv(r) && RunMoves(r, mvs).Ok?
    ensures RecInv(RunMoves(r, mvs).value)
  {
    hide RecInv, Record, SysInv;
    if mvs != [] {
      RunKeepsRec(r, mvs[..|mvs| - 1]);
      RecordKeeps(RunMoves(r, mvs[..|mvs| - 1]).value, mvs[|mvs| - 1]);
    }
  }

  /** Under any schedule, with interrupts between any two instructions and page faults
      anywhere, every process goes through exactly the states (registers, program counter,
      memory) of its program run alone on a flat memory, and a live process is now in the
      last of them. */
  lemma AnySchedule(m: Memory, mvs: seq<Move>)
    requires Initial(m) && RunMoves(Boot(m), mvs).Ok?
    ensures var r := RunMoves(Boot(m), mvs).value;
            && SysInv(r.sys) && r.progs.Keys == r.traces.Keys
            && (forall p :: p in r.traces ==> SoloRun(r.progs[p], r.traces[p]))
            && (forall p :: p in r.sys.pcbs ==>
                  (p in r.traces && |r.traces[p]| > 0 && r.progs[p] == r.sys.pcbs[p].prog
                   && r.traces[p][|r.traces[p]| - 1] == Seen(r.sys, p)))
  {
    hide SysInv, SoloRun, Seen, RecInv, RunMoves, Initial;
    BootInv(m);
    RunKeepsRec(Boot(m), mvs);
    RecordedFacts(RunMoves(Boot(m), mvs).value);
  }

  lemma RecordedFacts(r: Recorded)
    requires RecInv(r)
    ensures SysInv(r.sys) && r.progs.Keys == r.traces.Keys
    ensures forall p :: p in r.traces ==> SoloRun(r.progs[p], r.traces[p])
    ensures forall p :: p in r.sys.pcbs ==>
              && p in r.traces && |r.traces[p]| > 0 && r.progs[p] == r.sys.pcbs[p].prog
              && r.traces[p][|r.traces[p]| - 1] == Seen(r.sys, p)
  {
    hide SysInv, SoloRun, Seen;
    forall p | p in r.sys.pcbs
      ensures p in r.traces && |r.traces[p]| > 0 && r.progs[p] == r.sys.pcbs[p].prog
      ensures r.traces[p][|r.traces[p]| - 1] == Seen(r.sys, p)
    {
      assert Follows(r, p);
    }
  }

  lemma {:induction false} SoloUnique(prog: Program, a: seq<Machine>, b: seq<Machine>, k: nat)
    requires SoloRun(prog, a) && SoloRun(prog, b) && a[0] == b[0] && k < |a| && k < |b|
    ensures a[k] == b[k]
  {
    if k > 0 {
      SoloUnique(prog, a, b, k - 1);
      assert SoloStep(prog, a, k - 1) && SoloStep(prog, b, k - 1);
    }
  }

  /** What a process does depends on nothing but its program and where it started: two
      runs with other processes, schedules, memory sizes or replacement policies agree as
      far as both go. */
  lemma ScheduleIndependence(m1: Memory, mvs1: seq<Move>, m2: Memory, mvs2: seq<Move>, p: nat, q: nat)
    requires Initial(m1) && Initial(m2) && RunMoves(Boot(m1), mvs1).Ok? && RunMoves(Boot(m2), mvs2).Ok?
    requires var (r1, r2) := (RunMoves(Boot(m1), mvs1).value, RunMoves(Boot(m2), mvs2).value);
             && p in r1.traces && q in r2.traces && p in r1.progs && q in r2.progs && r1.progs[p] == r2.progs[q]
             && |r1.traces[p]| > 0 && |r2.traces[q]| > 0 && r1.traces[p][0] == r2.traces[q][0]
    ensures var (a, b) := (RunMoves(Boot(m1), mvs1).value.traces[p], RunMoves(Boot(m2), mvs2).value.traces[q]);
            forall k :: 0 <= k < |a| && k < |b| ==> a[k] == b[k]
  {
    hide SysInv, Initial, RunMoves;
    var r1, r2 := RunMoves(Boot(m1), mvs1).value, RunMoves(Boot(m2), mvs2).value;
    AnySchedule(m1, mvs1);
    AnySchedule(m2, mvs2);
    forall k | 0 <= k < |r1.traces[p]| && k < |r2.traces[q]| ensures r1.traces[p][k] == r2.traces[q][k] {
      SoloUnique(r1.progs[p], r1.traces[p], r2.traces[q], k);
    }
  }

  /** The only ways the system can die: a process asks for an address its program could
      not use on its own machine either, a new process does not fit in swap, or a page
      fault finds no free frame and no page to replace. */
  lemma DeathCauses(s: Sys, mv: Move)
    requires SysInv(s) && Enabled(s, mv) && StepDefined(s, mv)
    ensures Advance(s, mv).Crash? <==>
            match mv
            case RunCycle => CpuPid(s) in s.pcbs && MachineStep(s.pcbs[CpuPid(s)].prog, Seen(s, CpuPid(s))).Stuck?
            case Start(_, pages, _, _) => pages > |FreeIds(s.mem.taken, 0)|
            case Serve(_) => FirstFree(s.mem.owners) == |s.mem.owners| && Victim(s.mem) == None
            case _ => false
  {
    hide Inv, Advance, Seen, MachineStep, Sendable, MoveRight, Victim;
    match mv
    case Start(_, _, _, _) => StartRight(s, mv);
    case Dispatch(p) => DispatchRight(s, p);
    case RunCycle => RunCycleRight(s);
    case Interrupt(_) => LeaveRight(s, mv);
    case Return => LeaveRight(s, mv);
    case ReportFault => LeaveRight(s, mv);
    case Serve(p) => ServeDies(s, p);
    case Finish => FinishRight(s);
  }

  lemma ServeDies(s: Sys, p: nat)
    requires SysInv(s) && Enabled(s, Serve(p)) && StepDefined(s, Serve(p))
    ensures Advance(s, Serve(p)).Crash? <==> FirstFree(s.mem.owners) == |s.mem.owners| && Victim(s.mem) == None
  {
    hide Inv, ServeFault, Victim, Sendable, ProgramOk;
    assert PcbOk(s, p);
    InvShape(s.mem);
    ServeFaultKeeps(s.mem, Page(p, s.pcbs[p].status.page));
  }
}
