/** The converse of the schedule theorem: every run of a program alone on a flat memory is
    what the system makes of that program under some schedule, whatever the frames. */
module SoloRuns {
  import opened Words
  import opened Paging
  import opened FlatView
  import opened SwapMap
  import opened Lifecycle
  import opened Accounting
  import opened History
  import opened Cpu
  import opened Codec
  import opened System
  import opened Schedules
  import opened Operands
  import opened EnoughFrames
  import opened Progress

  // ------------------------------------------------------------ how it starts

  /** What the first k swap blocks hold. */
  function Blocks(m: Memory, k: nat): Bytes
    requires m.base + k <= |m.disk|
  {
    if k == 0 then [] else Blocks(m, k - 1) + m.disk[m.base + k - 1]
  }

  lemma {:induction false} AllFree(taken: seq<bool>, i: nat)
    requires i <= |taken| && forall b :: 0 <= b < |taken| ==> !taken[b]
    ensures |FreeIds(taken, i)| == |taken| - i && forall k :: 0 <= k < |taken| - i ==> FreeIds(taken, i)[k] == i + k
    decreases |taken| - i
  {
    if i < |taken| {
      AllFree(taken, i + 1);
      var all, rest := FreeIds(taken, i), FreeIds(taken, i + 1);
      assert all == [i] + rest;
      hide FreeIds;
      forall k | 0 <= k < |taken| - i ensures all[k] == i + k {
        if k > 0 {
          assert all[k] == rest[k - 1];
        }
      }
    }
  }

  lemma {:induction false} PagesAreBlocks(m: Memory, c: map<Page, Bytes>, pid: nat, k: nat)
    requires m.base + k <= |m.disk| && forall b :: 0 <= b < |m.disk| ==> |m.disk[b]| == m.pageSize
    requires forall i :: 0 <= i < k ==> Page(pid, i) in c && c[Page(pid, i)] == m.disk[m.base + i]
    ensures Pages(c, m.pageSize, pid, k) == Blocks(m, k)
  {
    if k > 0 {
      PagesAreBlocks(m, c, pid, k - 1);
    }
  }

  /** The machine a process of a freshly booted system starts as. */
  function FirstMachine(m: Memory, ctx: Context, pages: nat): Machine
    requires m.base + pages <= |m.disk|
  {
    Machine(ctx.regs, 0, Blocks(m, pages))
  }

  lemma FirstFlat(m: Memory, p: nat, pages: nat)
    requires Initial(m) && Inv(m) && pages <= |m.taken|
    ensures p !in m.count && Create(m, p, pages).Ok? && m.base + pages <= |m.disk|
    ensures var n := Create(m, p, pages).value; Inv(n) && p in n.count && Flat(n, p) == Blocks(m, pages)
  {
    hide Inv, FreeIds, Create, Contents, Blocks;
    InvShape(m);
    AllFree(m.taken, 0);
    CreateKeeps(m, p, pages);
    CreateShape(m, p, pages);
    var n := Create(m, p, pages).value;
    ContentsCover(n, p);
    var ids := FreeIds(m.taken, 0)[..pages];
    forall i | 0 <= i < pages
      ensures Page(p, i) in Contents(n) && Contents(n)[Page(p, i)] == m.disk[m.base + i]
    {
      assert ids[i] == i;
      assert FreshPages(m, n, p, ids);
    }
    PagesAreBlocks(m, Contents(n), p, pages);
  }

  /** A program and a context that iniciar_proceso can start on memory m. */
  predicate Startable(m: Memory, p: nat, pages: nat, prog: Program, ctx: Context) {
    && p < 100 && ctx.pid == p && ctx.pc == 0 && Sendable(ctx.instruction) && ProgramOk(prog, m.pageSize)
    && pages <= |m.taken| && |m.owners| > 0 && m.base + pages <= |m.disk|
  }

  lemma StartIt(m: Memory, p: nat, pages: nat, prog: Program, ctx: Context) returns (r: Recorded)
    requires Initial(m) && Startable(m, p, pages, prog, ctx)
    ensures Reached(m, [Start(p, pages, prog, ctx)], r) && SysInv(r.sys) && Roomy(m, r.sys)
    ensures r.sys.pcbs.Keys == {p} && p in r.sys.pcbs && r.sys.pcbs[p].prog == prog && r.sys.mem.clock == 0
    ensures p in r.traces && r.traces[p] == [FirstMachine(m, ctx, pages)] && Seen(r.sys, p) == FirstMachine(m, ctx, pages)
    ensures !AtExit(r.sys, p) && r.sys.mem.policy == m.policy && |r.sys.mem.ents| == pages
  {
    hide SysInv, Inv, RunMoves, Create, Seen, Sendable, ProgramOk, FirstMachine;
    var mv := Start(p, pages, prog, ctx);
    InitialInv(m);
    BootPending(m);
    BootShape(m);
    FirstFlat(m, p, pages);
    var t := StartedSys(m, mv);
    r := Go(m, [], Boot(m), mv, t);
    assert [] + [mv] == [mv];
    StartedTrace(m, mv, r);
    assert Dispatchable(r.sys) == {p};
  }

  lemma BootShape(m: Memory)
    requires Initial(m)
    ensures Inv(m) && Boot(m).sys == Sys(m, map[], Idle) && Boot(m).traces == map[] && Boot(m).progs == map[]
    ensures SysInv(Boot(m).sys)
  {
    InitialInv(m);
  }

  lemma StartedSys(m: Memory, mv: Move) returns (t: Sys)
    requires Initial(m) && Inv(m) && mv.Start? && Startable(m, mv.pid, mv.pages, mv.prog, mv.ctx)
    requires Create(m, mv.pid, mv.pages).Ok?
    requires var n := Create(m, mv.pid, mv.pages).value;
             Inv(n) && mv.pid in n.count && Flat(n, mv.pid) == Blocks(m, mv.pages)
    ensures var s := Boot(m).sys; Enabled(s, mv) && StepDefined(s, mv) && Advance(s, mv) == Ok(t)
    ensures SysInv(t) && t.pcbs == map[mv.pid := Pcb(mv.ctx, mv.prog, Ready)] && t.cpu.Idle?
    ensures Seen(t, mv.pid) == FirstMachine(m, mv.ctx, mv.pages) && t.mem.clock == 0 && CounterFits(t.mem)
    ensures t.mem.policy == m.policy && |t.mem.ents| == mv.pages
  {
    hide Inv, Create, Sendable, ProgramOk, Flat, Blocks;
    var s := Boot(m).sys;
    BootShape(m);
    StepRightHere(s, mv);
    t := Advance(s, mv).value;
    AdvanceGrows(s, mv);
    CreateClock(m, mv.pid, mv.pages);
    CreateCount(m, mv.pid, mv.pages);
  }

  lemma CreateCount(m: Memory, p: nat, pages: nat)
    requires Initial(m) && Inv(m) && Create(m, p, pages).Ok?
    ensures |Create(m, p, pages).value.ents| == pages
  {
    hide Inv, FreeIds, Contents, FreshPages, Create;
    CreateKeeps(m, p, pages);
    var n := Create(m, p, pages).value;
    InvShape(n);
    assert n.ents.Keys == PagesOf(p, pages);
  }

  lemma StepRightHere(s: Sys, mv: Move)
    requires SysInv(s) && Enabled(s, mv) && StepDefined(s, mv) && Advance(s, mv).Ok?
    ensures SysInv(Advance(s, mv).value)
  {
    hide SysInv, Inv, Enabled, Advance;
    StepRight(s, mv);
  }

  lemma CreateClock(m: Memory, p: nat, pages: nat)
    requires Create(m, p, pages).Ok?
    ensures Create(m, p, pages).value.clock == m.clock && Create(m, p, pages).value.policy == m.policy
  {
  }

  lemma StartedTrace(m: Memory, mv: Move, r: Recorded)
    requires Initial(m) && mv.Start? && RunMoves(Boot(m), [mv]) == Ok(r) && SysInv(r.sys)
    ensures mv.pid in r.sys.pcbs && mv.pid in r.traces && r.traces[mv.pid] == [Seen(r.sys, mv.pid)]
  {
    hide SysInv, Inv, Advance, Enabled, Seen;
    BootShape(m);
    assert [] + [mv] == [mv];
    assert RunMoves(Boot(m), []) == Ok(Boot(m));
    LastMove(Boot(m), [], mv);
    StartedPid(Boot(m).sys, mv);
  }

  // ---------------------------------------------------------------- how it goes on

  /** A trace keeps its first state. */
  lemma {:induction false} TraceStarts(m: Memory, all: seq<Move>, more: seq<Move>, r: Recorded, u: Recorded, p: nat)
    requires Reached(m, all, r) && Reached(m, all + more, u) && p in r.traces && |r.traces[p]| > 0
    ensures p in u.traces && |u.traces[p]| > 0 && u.traces[p][0] == r.traces[p][0]
    ensures p in r.progs ==> p in u.progs && u.progs[p] == r.progs[p]
  {
    hide RecInv, SysInv, Inv, Record, Enabled, Advance, Pending;
    if more == [] {
      assert all + more == all;
    } else {
      var before, mv := more[..|more| - 1], more[|more| - 1];
      assert all + more == (all + before) + [mv];
      LastMove(Boot(m), all + before, mv);
      var v := RunMoves(Boot(m), all + before).value;
      ReachedFacts(m, all + before, v);
      TraceStarts(m, all, before, r, v, p);
      RecordStarts0(v, mv, p);
    }
  }

  lemma RecordStarts0(r: Recorded, mv: Move, p: nat)
    requires RecInv(r) && Record(r, mv).Ok? && p in r.traces && |r.traces[p]| > 0
    ensures var u := Record(r, mv).value;
            && p in u.traces && |u.traces[p]| > 0 && u.traces[p][0] == r.traces[p][0]
            && (forall q :: q in r.progs ==> q in u.progs && u.progs[q] == r.progs[q])
  {
    hide SysInv, Enabled, Advance, Seen, SoloRun;
    RecSys(r);
    SysDefined(r.sys, mv);
  }

  predicate Accesses(prog: Program, pc: int) {
    0 <= pc < |prog| && (prog[pc].op.MoveIn? || prog[pc].op.MoveOut?)
  }

  /** How many of the steps between the states access memory. */
  function AccessCount(prog: Program, states: seq<Machine>): nat {
    if |states| <= 1 then 0
    else AccessCount(prog, states[..|states| - 1]) + if Accesses(prog, states[|states| - 2].pc) then 1 else 0
  }

  lemma {:induction false} FewerAccesses(prog: Program, states: seq<Machine>, n: nat)
    requires n <= |states|
    ensures AccessCount(prog, states[..n]) <= AccessCount(prog, states)
  {
    if n == |states| {
      assert states[..n] == states;
    } else if |states| > 1 {
      FewerAccesses(prog, states[..|states| - 1], n);
      assert states[..|states| - 1][..n] == states[..n];
    }
  }

  /** The process has a frame for each of its pages; or, under LRU, fewer than MAX_LRU of the
      steps before the last one access memory. */
  predicate Fits(m: Memory, prog: Program, pages: nat, states: seq<Machine>)
    requires |states| > 0
  {
    m.policy.Lru? ==> pages <= |m.owners| || AccessCount(prog, states[..|states| - 1]) < MAX_LRU
  }

  /** states is a run of prog alone from what a started process finds. */
  ghost predicate SoloFrom(m: Memory, prog: Program, ctx: Context, pages: nat, states: seq<Machine>)
    requires m.base + pages <= |m.disk|
  {
    SoloRun(prog, states) && states[0] == FirstMachine(m, ctx, pages) && Fits(m, prog, pages, states)
  }

  /** The process has gone through exactly these states, alone in the system. */
  ghost predicate Followed(m: Memory, r: Recorded, p: nat, pages: nat, prog: Program, states: seq<Machine>)
    requires SysInv(r.sys)
  {
    && r.sys.pcbs.Keys == {p} && p in r.sys.pcbs && r.sys.pcbs[p].prog == prog
    && p in r.traces && r.traces[p] == states && |states| > 0 && Seen(r.sys, p) == states[|states| - 1]
    && p in r.progs && r.progs[p] == prog && |m.owners| > 0
    && (AtExit(r.sys, p) <==> Ended(prog, states)) && r.sys.mem.policy == m.policy
    && r.sys.mem.clock == AccessCount(prog, states) && |r.sys.mem.ents| <= pages
  }

  lemma FollowedRoomy(m: Memory, r: Recorded, p: nat, pages: nat, prog: Program, states: seq<Machine>, n: nat)
    requires 0 < n < |states| && SysInv(r.sys) && Followed(m, r, p, pages, prog, states[..n])
    requires Fits(m, prog, pages, states)
    ensures Roomy(m, r.sys)
  {
    hide SysInv, Seen;
    SubsetSize(Dispatchable(r.sys), {p});
    FewerAccesses(prog, states[..|states| - 1], n);
    assert states[..|states| - 1][..n] == states[..n];
  }

  /** One more state of the solo run. */
  lemma FollowOn(m: Memory, all: seq<Move>, r: Recorded, p: nat, pages: nat, prog: Program, states: seq<Machine>, n: nat)
      returns (more: seq<Move>, u: Recorded)
    requires Reached(m, all, r) && SysInv(r.sys) && p < 100 && 0 < n < |states| && SoloRun(prog, states)
    requires Fits(m, prog, pages, states) && Followed(m, r, p, pages, prog, states[..n])
    ensures Reached(m, all + more, u) && SysInv(u.sys) && Followed(m, u, p, pages, prog, states[..n + 1])
  {
    hide SysInv, Inv, Reached, Seen, MachineStep, RecInv, Pending, Roomy, OperandPage;
    FollowedRoomy(m, r, p, pages, prog, states, n);
    assert SoloStep(prog, states, n - 1);
    NotYetEnded(prog, states, n);
    more, u := NextInstruction(m, all, r, p);
    ReachedFacts(m, all, r);
    ReachedFacts(m, all + more, u);
    TraceStarts(m, all, more, r, u, p);
    OnlyOne(r, u, p);
    SameTrace(u, p, prog, states, n + 1);
    LastSeen(u, p);
    OperandAccess(r.sys, p, states[n - 1]);
    assert states[..n + 1][..n] == states[..n];
    FewerPages(u.sys.mem.ents.Keys, r.sys.mem.ents.Keys);
  }

  lemma OperandAccess(s: Sys, p: nat, now: Machine)
    requires SysInv(s) && p in s.pcbs && Seen(s, p) == now
    ensures OperandPage(s, p).Some? <==> Accesses(s.pcbs[p].prog, now.pc)
  {
    hide SysInv, Inv, Seen;
    SeenPcIs(s, p);
    SysMemInv(s);
    InvShape(s.mem);
  }

  lemma OnlyOne(r: Recorded, u: Recorded, p: nat)
    requires r.sys.pcbs.Keys == {p} && u.sys.pcbs.Keys <= r.sys.pcbs.Keys && p in u.sys.pcbs
    ensures u.sys.pcbs.Keys == {p}
  {
  }

  lemma NotYetEnded(prog: Program, states: seq<Machine>, n: nat)
    requires SoloRun(prog, states) && 0 < n < |states|
    ensures !Ended(prog, states[..n]) && states[..n][0] == states[0]
    ensures Ended(prog, states[..n + 1]) <==> 0 <= states[n - 1].pc < |prog| && prog[states[n - 1].pc].op.Exit?
  {
    hide MachineStep;
    if n >= 2 {
      assert SoloStep(prog, states, n - 2);
    }
  }

  lemma SameTrace(u: Recorded, p: nat, prog: Program, states: seq<Machine>, n: nat)
    requires RecInv(u) && p in u.traces && p in u.progs && u.progs[p] == prog && |u.traces[p]| == n
    requires 0 < n <= |states| && SoloRun(prog, states) && u.traces[p][0] == states[0]
    ensures u.traces[p] == states[..n]
  {
    hide SysInv, SoloStep;
    forall k | 0 <= k < n ensures u.traces[p][k] == states[k] {
      SoloUnique(prog, u.traces[p], states, k);
    }
  }

  lemma LastSeen(u: Recorded, p: nat)
    requires RecInv(u) && SysInv(u.sys) && p in u.sys.pcbs && p in u.traces
    ensures |u.traces[p]| > 0 && u.traces[p][|u.traces[p]| - 1] == Seen(u.sys, p)
  {
    hide SysInv, Seen, SoloRun;
    assert Follows(u, p);
  }

  lemma {:induction false} Follow(m: Memory, p: nat, pages: nat, prog: Program, ctx: Context, states: seq<Machine>, n: nat)
      returns (all: seq<Move>, r: Recorded)
    requires Initial(m) && Startable(m, p, pages, prog, ctx) && SoloFrom(m, prog, ctx, pages, states)
    requires 0 < n <= |states|
    ensures Reached(m, all, r) && SysInv(r.sys) && Followed(m, r, p, pages, prog, states[..n])
  {
    hide SysInv, Inv, Reached, Seen, SoloRun, FirstMachine, Initial;
    if n == 1 {
      r := StartIt(m, p, pages, prog, ctx);
      all := [Start(p, pages, prog, ctx)];
      assert states[..1] == [states[0]];
      ReachedProg(m, all, r, p);
    } else {
      var before, v := Follow(m, p, pages, prog, ctx, states, n - 1);
      var more, u := FollowOn(m, before, v, p, pages, prog, states, n - 1);
      all, r := before + more, u;
    }
  }

  lemma ReachedProg(m: Memory, all: seq<Move>, r: Recorded, p: nat)
    requires Reached(m, all, r) && SysInv(r.sys) && p in r.sys.pcbs
    ensures p in r.progs && r.progs[p] == r.sys.pcbs[p].prog
  {
    hide SysInv, Inv, RunMoves, Initial, SoloRun, Pending;
    ReachedFacts(m, all, r);
    assert Follows(r, p);
  }

  // ------------------------------------------------------------- main theorems

  /** Every run of a program alone on a flat memory, of any length and with as little as one
      frame of real memory, is the trace of that program in some run of the system. */
  lemma EverySoloRunHappens(m: Memory, p: nat, pages: nat, prog: Program, ctx: Context, states: seq<Machine>)
      returns (all: seq<Move>)
    requires Initial(m) && Startable(m, p, pages, prog, ctx) && SoloFrom(m, prog, ctx, pages, states)
    ensures RunMoves(Boot(m), all).Ok?
    ensures var r := RunMoves(Boot(m), all).value; p in r.traces && r.traces[p] == states
  {
    hide SysInv, RunMoves, Seen, SoloStep, FirstMachine, Initial;
    var r;
    all, r := Follow(m, p, pages, prog, ctx, states, |states|);
    assert states[..|states|] == states;
  }

  /** And when that run ends with EXIT, the system can finish the process and be left with
      every frame and block free and its lists empty. */
  lemma HaltingProgramsLeave(m: Memory, p: nat, pages: nat, prog: Program, ctx: Context, states: seq<Machine>)
      returns (all: seq<Move>)
    requires Initial(m) && Startable(m, p, pages, prog, ctx) && SoloFrom(m, prog, ctx, pages, states)
    requires Ended(prog, states)
    ensures RunMoves(Boot(m), all).Ok?
    ensures var r := RunMoves(Boot(m), all).value;
            && p in r.traces && r.traces[p] == states && r.sys.pcbs == map[]
            && r.sys.mem.ents == map[] && r.sys.mem.touched == [] && r.sys.mem.order == []
            && (forall f :: 0 <= f < |r.sys.mem.owners| ==> r.sys.mem.owners[f] == -1)
            && (forall b :: 0 <= b < |r.sys.mem.taken| ==> !r.sys.mem.taken[b])
  {
    hide SysInv, Inv, Seen, SoloRun, FirstMachine, Advance, MoveDoes, Pending, Record;
    var before, r := Follow(m, p, pages, prog, ctx, states, |states|);
    assert states[..|states|] == states;
    SysDefined(r.sys, Move.Finish);
    FinishRight(r.sys);
    var u := Go(m, before, r, Move.Finish, Advance(r.sys, Move.Finish).value);
    all := before + [Move.Finish];
    ReachedFacts(m, before, r);
    FinishTraces(r, p);
    LastMove(Boot(m), before, Move.Finish);
    NoProcessLeft(u.sys);
    NothingLeaks(u.sys.mem);
  }

  lemma FinishTraces(r: Recorded, p: nat)
    requires SysInv(r.sys) && Record(r, Move.Finish).Ok?
    ensures Record(r, Move.Finish).value.traces == r.traces
  {
    hide SysInv, Enabled, Advance, Seen;
    SysDefined(r.sys, Move.Finish);
  }

  lemma NoProcessLeft(s: Sys)
    requires SysInv(s) && s.pcbs.Keys == {}
    ensures s.pcbs == map[] && s.mem.count == map[] && Inv(s.mem)
  {
    hide Inv;
    assert s.mem.count.Keys == {};
  }

  // ----------------------------------------------------------------- an example

  const TEXT: RawInstruction := RawInstruction(MOV_OUT, 0, 0, [], [])

  const FIRST: Context := Context(0, 0, Registers(7, 0, 0, 0), 0, 0, TEXT, 0, 0)

  /** MOV_OUT 0 AX; EXIT. */
  const STORE_AND_EXIT: Program := [Line(MoveOut(0, AX), TEXT), Line(Instruction.Exit, TEXT)]

  /** On every boot with a frame, a swap block and pages of at least a word, a process whose
      page starts out in swap stores to it, exits and leaves nothing. */
  lemma FaultingRunExists(m: Memory) returns (all: seq<Move>)
    requires Initial(m) && m.pageSize >= 4 && |m.owners| > 0 && |m.taken| > 0
    ensures RunMoves(Boot(m), all).Ok?
    ensures var r := RunMoves(Boot(m), all).value;
            && r.sys.pcbs == map[] && 0 in r.traces && |r.traces[0]| == 3
            && |r.traces[0][0].mem| >= 4 && r.traces[0][2].mem == Patch(r.traces[0][0].mem, 0, Le(7))
  {
    var first := FirstMachine(m, FIRST, 1);
    assert |Blocks(m, 1)| == m.pageSize by { assert Blocks(m, 0) == []; }
    var stored := first.(mem := Patch(first.mem, 0, Le(7)), pc := 1);
    var states := [first, stored, stored.(pc := 2)];
    hide Patch, Le, Blocks, Initial, RunMoves;
    assert SoloStep(STORE_AND_EXIT, states, 0) && SoloStep(STORE_AND_EXIT, states, 1);
    ZeroOffset(m.pageSize);
    all := HaltingProgramsLeave(m, 0, 1, STORE_AND_EXIT, FIRST, states);
  }
}
