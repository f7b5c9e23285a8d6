/** When page-fault service can find itself with nothing to replace: loading a page neither
    queues nor stamps it, so a frame whose page was loaded but not yet used cannot be taken. */
module EnoughFrames {
  import opened Words
  import opened Paging
  import opened Lifecycle
  import opened History
  import opened Replacement
  import opened Accounting
  import opened Cpu
  import opened System
  import opened Schedules
  import opened Operands

  /** A resident page the policy would not choose. */
  predicate Spared(m: Memory, pg: Page) {
    && pg in m.ents && m.ents[pg].present
    && match m.policy
       case Fifo => pg !in m.touched
       case Lru => m.ents[pg].stamp >= MAX_LRU
  }

  /** A page no policy would choose is one that its process is about to use. */
  ghost predicate SparedArePending(s: Sys) {
    forall pg :: Spared(s.mem, pg) ==> pg.pid in s.pcbs && OperandPage(s, pg.pid) == Some(pg)
  }

  /** The access counter has not reached the bound from which LRU ignores accesses. */
  predicate CounterFits(m: Memory) {
    m.policy.Lru? ==> m.clock < MAX_LRU
  }

  // ----------------------------------------------------- never without a victim

  lemma NoVictimSparesAll(m: Memory)
    requires Inv(m) && Victim(m) == None
    ensures forall pg :: pg in m.ents && m.ents[pg].present ==> Spared(m, pg)
  {
    hide Frames, SwapOwned, Queue, Stamps, Clean, Tables, Shape;
    if m.policy.Lru? {
      VictimLowest(m);
    }
  }

  lemma NoFreeFrame(m: Memory)
    requires FirstFree(m.owners) == |m.owners|
    ensures FreeFrames(m) == {}
  {
  }

  /** An injection bounds a set. */
  lemma {:induction false} Injects(pages: set<Page>, pids: set<nat>)
    requires forall pg :: pg in pages ==> pg.pid in pids
    requires forall a, b :: a in pages && b in pages && a.pid == b.pid ==> a == b
    ensures |pages| <= |pids|
  {
    if pages != {} {
      var pg :| pg in pages;
      Injects(pages - {pg}, pids - {pg.pid});
    }
  }

  /** The live processes that the dispatcher does not skip. */
  ghost function Dispatchable(s: Sys): set<nat> {
    set p | p in s.pcbs && p < 100
  }

  ghost function FirstPids(n: nat): (r: set<nat>)
    ensures |r| == n && forall p: nat :: p in r <==> p < n
  {
    if n == 0 then {} else FirstPids(n - 1) + {n - 1}
  }

  lemma {:induction false} SubsetSize(a: set<nat>, b: set<nat>)
    requires a <= b
    ensures |a| <= |b|
  {
    if a != {} {
      var x :| x in a;
      SubsetSize(a - {x}, b - {x});
    }
  }

  lemma FewDispatchable(s: Sys)
    ensures |Dispatchable(s)| <= 100
  {
    SubsetSize(Dispatchable(s), FirstPids(100));
  }

  /** With a frame for each live process that can run, a pending page fault always finds a
      free frame or a page to replace. */
  lemma EnoughFramesServe(s: Sys, p: nat)
    requires SysInv(s) && Pending(s) && SparedArePending(s) && p in s.pcbs && s.pcbs[p].status.Blocked?
    requires |Dispatchable(s)| <= |s.mem.owners|
    ensures FirstFree(s.mem.owners) < |s.mem.owners| || Victim(s.mem).Some?
  {
    hide Inv, Spared, OperandPage, Sendable, ProgramOk, FirstFree, CpuOk, CpuPending;
    var m := s.mem;
    assert PcbOk(s, p) && BlockedOn(s, p);
    InvShape(m);
    if FirstFree(m.owners) == |m.owners| && Victim(m) == None {
      NoVictimSparesAll(m);
      NoFreeFrame(m);
      FramesAccounted(m);
      var pages, pids := ResidentPages(m), Dispatchable(s) - {p};
      forall pg | pg in pages ensures pg.pid in pids {
        assert Spared(m, pg);
      }
      Injects(pages, pids);
    }
  }

  // -------------------------------------------------------- every move keeps it

  /** Which pages are spared, after each kind of memory change. */
  lemma UseSpares(m: Memory, n: Memory, p: Page)
    requires Inv(m) && Effect(m, n, Used(p)) && CounterFits(n)
    ensures forall pg :: Spared(n, pg) ==> Spared(m, pg) && pg != p
  {
    hide Inv;
  }

  lemma LoadSpares(m: Memory, n: Memory, p: Page)
    requires Inv(m) && Effect(m, n, Loaded(p))
    ensures forall pg :: Spared(n, pg) ==> Spared(m, pg) || pg == p
  {
    hide Frames, SwapOwned, Stamps, Clean, Tables, Shape, FirstFree;
    if m.policy.Fifo? && FirstFree(m.owners) == |m.owners| {
      assert m.touched == [m.touched[0]] + m.touched[1..];
    }
  }

  lemma ProcessSpares(m: Memory, n: Memory, e: Event)
    requires Inv(m) && (e.New? || e.Gone?) && Effect(m, n, e)
    ensures forall pg :: Spared(n, pg) ==> Spared(m, pg) && (e.Gone? ==> pg.pid != e.pid)
  {
    hide Frames, SwapOwned, Stamps, Clean, Tables, Shape, Without;
    if e.Gone? {
      WithoutExact(m.touched, (pg: Page) => pg.pid == e.pid);
    }
  }

  lemma AdvanceSpares(s: Sys, mv: Move)
    requires SysInv(s) && Pending(s) && SparedArePending(s)
    requires Enabled(s, mv) && StepDefined(s, mv) && Advance(s, mv).Ok? && CounterFits(Advance(s, mv).value.mem)
    ensures SparedArePending(Advance(s, mv).value)
  {
    hide SysInv, Inv, Enabled, Advance, Effect, OperandPage, Spared, Completes, Pending;
    var t := Advance(s, mv).value;
    MoveEffect(s, mv);
    forall pg | Spared(t.mem, pg) ensures pg.pid in t.pcbs && OperandPage(t, pg.pid) == Some(pg) {
      SparedBefore(s, mv, t, pg);
      NotCompleted(s, mv, pg);
      OperandStays(s, mv, pg.pid);
    }
  }

  /** A page spared after a move was the operand of its process before it, and that process
      is still there. */
  lemma SparedBefore(s: Sys, mv: Move, t: Sys, pg: Page)
    requires SysInv(s) && Pending(s) && SparedArePending(s) && MoveDoes(s, mv, t) && Enabled(s, mv) && StepDefined(s, mv)
    requires Advance(s, mv) == Ok(t) && CounterFits(t.mem) && Spared(t.mem, pg)
    ensures pg.pid in s.pcbs && OperandPage(s, pg.pid) == Some(pg) && pg.pid in t.pcbs
    ensures mv.RunCycle? && OperandPage(s, s.cpu.ctx.pid).Some? && !t.cpu.pageFault ==>
              pg != OperandPage(s, s.cpu.ctx.pid).value
  {
    hide SysInv, Inv, Enabled, Advance, Effect, OperandPage, Spared;
    MovePids(s, mv);
    SysMemInv(s);
    match mv
    case Start(pid, _, _, _) => ProcessSpares(s.mem, t.mem, New(pid));
    case Serve(p) =>
      LoadSpares(s.mem, t.mem, Page(p, s.pcbs[p].status.page));
    case Finish => ProcessSpares(s.mem, t.mem, Gone(s.cpu.ctx.pid));
    case RunCycle =>
      if OperandPage(s, s.cpu.ctx.pid).Some? && !t.cpu.pageFault {
        UseSpares(s.mem, t.mem, OperandPage(s, s.cpu.ctx.pid).value);
      }
    case _ =>
  }

  lemma SysMemInv(s: Sys)
    requires SysInv(s)
    ensures Inv(s.mem) && Tables(s.mem)
  {
  }

  /** A live process survives every move but its own Finish. */
  lemma MovePids(s: Sys, mv: Move)
    requires SysInv(s) && Enabled(s, mv) && StepDefined(s, mv) && Advance(s, mv).Ok?
    ensures var t := Advance(s, mv).value;
            forall p :: p in s.pcbs ==> p in t.pcbs || (mv.Finish? && s.cpu.ctx.pid == p)
  {
    hide SysInv, Inv, Transmit, Sendable, ProgramOk, Cycle, ServeFault, Create, Lifecycle.Finish;
    match mv
    case _ =>
  }

  lemma NotCompleted(s: Sys, mv: Move, pg: Page)
    requires SysInv(s) && Enabled(s, mv) && StepDefined(s, mv) && Advance(s, mv).Ok?
    requires MoveDoes(s, mv, Advance(s, mv).value) && pg.pid in s.pcbs && OperandPage(s, pg.pid) == Some(pg)
    requires var t := Advance(s, mv).value;
             mv.RunCycle? && OperandPage(s, s.cpu.ctx.pid).Some? && !t.cpu.pageFault ==>
               pg != OperandPage(s, s.cpu.ctx.pid).value
    ensures !Completes(s, mv, Advance(s, mv).value, pg.pid)
  {
    hide SysInv, Inv, Enabled, Advance, Effect, OperandPage;
  }

  lemma {:induction false} RunSpares(m: Memory, mvs: seq<Move>)
    requires Initial(m) && RunMoves(Boot(m), mvs).Ok? && CounterFits(RunMoves(Boot(m), mvs).value.sys.mem)
    ensures SysInv(RunMoves(Boot(m), mvs).value.sys) && Pending(RunMoves(Boot(m), mvs).value.sys)
    ensures SparedArePending(RunMoves(Boot(m), mvs).value.sys)
  {
    hide RecInv, SysInv, Inv, Pending, RunMoves, Record, Initial, Enabled, Advance, SparedArePending;
    RunPending(m, mvs);
    RecSys(RunMoves(Boot(m), mvs).value);
    if mvs == [] {
      BootSpares(m);
    } else {
      var before, mv := mvs[..|mvs| - 1], mvs[|mvs| - 1];
      assert mvs == before + [mv];
      LastMove(Boot(m), before, mv);
      var s := RunMoves(Boot(m), before).value.sys;
      RunPending(m, before);
      AdvanceGrows(s, mv);
      RunSpares(m, before);
      AdvanceSpares(s, mv);
    }
  }

  lemma BootSpares(m: Memory)
    requires Initial(m)
    ensures RunMoves(Boot(m), []) == Ok(Boot(m)) && SparedArePending(Boot(m).sys)
  {
  }

  // ------------------------------------------------------------ room for all pages

  /** When memory has as many frames as there are pages, an absent page leaves one free. */
  lemma RoomForAbsent(m: Memory, pg: Page)
    requires Inv(m) && |m.ents| <= |m.owners| && pg in m.ents && !m.ents[pg].present
    ensures FirstFree(m.owners) < |m.owners|
  {
    hide Inv, FirstFree;
    FramesAccounted(m);
    PageSubset(ResidentPages(m), m.ents.Keys, pg);
    if FirstFree(m.owners) >= |m.owners| {
      NoFreeFrame(m);
    }
  }

  lemma {:induction false} PageSubset(a: set<Page>, b: set<Page>, pg: Page)
    requires a <= b && pg in b && pg !in a
    ensures |a| < |b|
  {
    if a == {} {
      assert pg in b;
    } else {
      var x :| x in a;
      PageSubset(a - {x}, b - {x}, pg);
    }
  }

  /** And so it has where swap is no larger than memory. */
  lemma SwapBoundsPages(m: Memory)
    requires Inv(m)
    ensures |m.ents| <= |m.taken|
  {
    BlocksAccounted(m);
  }

  lemma BlockedAbsent(s: Sys, p: nat)
    requires SysInv(s) && p in s.pcbs && s.pcbs[p].status.Blocked?
    ensures var pg := Page(p, s.pcbs[p].status.page); pg in s.mem.ents && !s.mem.ents[pg].present
  {
    hide Inv;
    assert PcbOk(s, p);
  }

  // -------------------------------------------------------------- main theorems

  /** After the moves, p waits for a page whose service kills the memory process. */
  ghost predicate Dies(m: Memory, mvs: seq<Move>, p: nat)
    requires Initial(m)
  {
    RunMoves(Boot(m), mvs).Ok? && SysInv(RunMoves(Boot(m), mvs).value.sys)
    && var s := RunMoves(Boot(m), mvs).value.sys;
       Enabled(s, Serve(p)) && StepDefined(s, Serve(p)) && Advance(s, Serve(p)).Crash?
  }

  /** In any run, as long as there is a frame for each live process that can run (and, under
      LRU, fewer than MAX_LRU accesses so far), page-fault service does not die. */
  lemma EnoughFramesNeverDie(m: Memory, mvs: seq<Move>, p: nat)
    requires Initial(m) && RunMoves(Boot(m), mvs).Ok?
    requires |Dispatchable(RunMoves(Boot(m), mvs).value.sys)| <= |m.owners|
    requires CounterFits(RunMoves(Boot(m), mvs).value.sys.mem)
    ensures !Dies(m, mvs, p)
  {
    hide SysInv, Inv, RunMoves, Advance, Sendable, Pending, SparedArePending, Dispatchable;
    if Dies(m, mvs, p) {
      RunSpares(m, mvs);
      RunGrown(m, mvs);
      var s := RunMoves(Boot(m), mvs).value.sys;
      EnoughFramesServe(s, p);
      ServeDies(s, p);
    }
  }

  /** With a hundred frames the first condition always holds, since no more than a hundred
      pids ever run: service dies under LRU alone, and not before MAX_LRU accesses. */
  lemma HundredFramesDieLate(m: Memory, mvs: seq<Move>, p: nat)
    requires Initial(m) && |m.owners| >= 100 && Dies(m, mvs, p)
    ensures m.policy.Lru? && RunMoves(Boot(m), mvs).value.sys.mem.clock >= MAX_LRU
  {
    hide SysInv, RunMoves, Dispatchable, Initial, Enabled;
    RunGrown(m, mvs);
    FewDispatchable(RunMoves(Boot(m), mvs).value.sys);
    if CounterFits(RunMoves(Boot(m), mvs).value.sys.mem) {
      EnoughFramesNeverDie(m, mvs, p);
    }
  }

  /** Without more swap blocks than frames every page has a frame, and service never dies. */
  lemma SmallSwapNeverDies(m: Memory, mvs: seq<Move>, p: nat)
    requires Initial(m) && |m.taken| <= |m.owners|
    ensures !Dies(m, mvs, p)
  {
    hide SysInv, Inv, RunMoves, Advance, Initial, FirstFree, Victim;
    if Dies(m, mvs, p) {
      var s := RunMoves(Boot(m), mvs).value.sys;
      RunGrown(m, mvs);
      SysMemInv(s);
      SwapBoundsPages(s.mem);
      BlockedAbsent(s, p);
      RoomForAbsent(s.mem, Page(p, s.pcbs[p].status.page));
      ServeDies(s, p);
    }
  }
}
