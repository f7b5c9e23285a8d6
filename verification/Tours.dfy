/** Processes that only store to their pages in a given order, and the moves that take such a
    process through one store. The runs in which fault service dies, or a retry faults again,
    are made of them. */
module Tours {
  import opened Words
  import opened Paging
  import opened SwapMap
  import opened Lifecycle
  import opened History
  import opened Replacement
  import opened Accounting
  import opened FlatView
  import opened Codec
  import opened Cpu
  import opened System
  import opened Schedules
  import opened Operands
  import opened EnoughFrames
  import opened Restarts
  import opened Progress
  import opened SoloRuns

  /** The pages to store to can be named in an instruction. */
  predicate Addressable(P: nat, ws: seq<nat>) {
    P >= 4 && |ws| < 0x7FFF_FFFF && forall i :: 0 <= i < |ws| ==> Nameable(P, ws[i])
  }

  predicate Nameable(P: nat, w: nat) {
    At(P, w, 0) < WORD
  }

  /** MOV_OUT to the start of each listed page in turn, then EXIT. */
  function Tour(P: nat, ws: seq<nat>): (prog: Program)
    requires Addressable(P, ws)
    ensures |prog| == |ws| + 1 && prog[|ws|] == Line(Instruction.Exit, TEXT)
    ensures forall i :: 0 <= i < |ws| ==> prog[i] == StoreTo(P, ws[i])
  {
    seq(|ws|, i requires 0 <= i < |ws| => StoreTo(P, ws[i])) + [Line(Instruction.Exit, TEXT)]
  }

  function StoreTo(P: nat, w: nat): Line
    requires Nameable(P, w)
  {
    Line(MoveOut(At(P, w, 0), AX), TEXT)
  }

  function TourContext(p: nat): Context
    requires p < 100
  {
    Context(p, 0, Registers(0, 0, 0, 0), 0, 0, TEXT, 0, 0)
  }

  /** p is on its tour, before the k-th store, and waits for that page or is ready. */
  ghost predicate OnTour(s: Sys, p: nat, ws: seq<nat>, k: nat, blocked: bool) {
    && SysInv(s) && s.cpu.Idle? && Addressable(s.mem.pageSize, ws) && p < 100 && k <= |ws| && p in s.pcbs
    && s.pcbs[p].prog == Tour(s.mem.pageSize, ws) && s.pcbs[p].ctx.pc == k && (blocked ==> k < |ws|)
    && s.pcbs[p].status == (if blocked then Blocked(ws[k]) else Ready)
    && forall i :: 0 <= i < |ws| ==> Page(p, ws[i]) in s.mem.ents
  }

  lemma PageStart(P: nat, w: nat)
    requires P >= 4
    ensures At(P, w, 0) / P == w && At(P, w, 0) % P == 0
  {
    SplitAddress(P, w, 0);
  }

  lemma TourOk(P: nat, ws: seq<nat>)
    requires Addressable(P, ws)
    ensures ProgramOk(Tour(P, ws), P)
  {
    hide At;
    forall i | 0 <= i < |ws| ensures At(P, ws[i], 0) % P == 0 {
      PageStart(P, ws[i]);
    }
  }

  /** What a process on tour is about to do. */
  lemma TourOperand(s: Sys, p: nat, ws: seq<nat>, k: nat, blocked: bool)
    requires OnTour(s, p, ws, k, blocked) && k < |ws|
    ensures OperandPage(s, p) == Some(Page(p, ws[k])) && Page(p, ws[k]) in s.mem.ents
    ensures OperandHere(s, p) <==> s.mem.ents[Page(p, ws[k])].present
    ensures Seen(s, p).pc == k && !AtOp(s, p, Instruction.Exit)
    ensures MachineStep(s.pcbs[p].prog, Seen(s, p)).Runs? && MachineStep(s.pcbs[p].prog, Seen(s, p)).next.pc == k + 1
  {
    hide Inv, Flat, Patch, Le, Sendable, ProgramOk, At;
    assert PcbOk(s, p) && Page(p, ws[k]) in s.mem.ents;
    SysMemInv(s);
    PageStart(s.mem.pageSize, ws[k]);
    AddressOfPage(s.mem, p, At(s.mem.pageSize, ws[k], 0));
  }

  /** A tour goes on unless its own process moves. */
  lemma TourStays(r: Recorded, u: Recorded, p: nat, q: nat, ws: seq<nat>, k: nat, blocked: bool)
    requires OnTour(r.sys, q, ws, k, blocked) && SysInv(u.sys) && u.sys.cpu.Idle? && p != q && Beside(r.sys, u.sys, p)
    requires Grown(r.sys.mem, u.sys.mem) && r.sys.mem.ents.Keys <= u.sys.mem.ents.Keys
    ensures OnTour(u.sys, q, ws, k, blocked)
  {
    hide SysInv;
  }

  // --------------------------------------------------------------------- entering

  lemma SwapHasRoom(m: Memory, pages: nat)
    requires Inv(m) && |m.ents| + pages <= |m.taken|
    ensures pages <= |FreeIds(m.taken, 0)|
  {
    hide Inv, FreeIds;
    BlocksAccounted(m);
    FreeIdsCount(m.taken, 0);
    assert FreeBlocks(m) == (set b: nat | 0 <= b < |m.taken| && !m.taken[b]);
  }

  /** A new process on its tour. */
  lemma Enter(m: Memory, all: seq<Move>, r: Recorded, p: nat, pages: nat, ws: seq<nat>)
      returns (more: seq<Move>, u: Recorded)
    requires Reached(m, all, r) && r.sys.cpu.Idle? && p < 100 && p !in r.traces
    requires Addressable(r.sys.mem.pageSize, ws) && (forall i :: 0 <= i < |ws| ==> ws[i] < pages)
    requires |r.sys.mem.ents| + pages <= |r.sys.mem.taken|
    ensures Reached(m, all + more, u) && OnTour(u.sys, p, ws, 0, false) && Inv(r.sys.mem) && SysInv(r.sys)
    ensures Effect(r.sys.mem, u.sys.mem, New(p)) && Grown(r.sys.mem, u.sys.mem)
    ensures forall pg :: pg in u.sys.mem.ents <==> pg in r.sys.mem.ents || (pg.pid == p && pg.index < pages)
    ensures u.sys.pcbs.Keys == r.sys.pcbs.Keys + {p} && u.traces.Keys == r.traces.Keys + {p}
    ensures forall q, vs, l, waits :: OnTour(r.sys, q, vs, l, waits) ==> OnTour(u.sys, q, vs, l, waits)
  {
    hide SysInv, Inv, RunMoves, Initial, Pending, Seen, MoveDoes, Steps, RecInv, Effect, OnTour, Enabled, Advance, StepDefined, Addressable;
    ReachedFacts(m, all, r);
    var mv, t := Newcomer(r.sys, p, pages, ws);
    u := Go(m, all, r, mv, t);
    NewEvent(r.sys, mv, t);
    more := [mv];
    LastMove(Boot(m), all, mv);
    StartTraces(r, mv);
    OnTourFacts(u.sys, p, ws, 0, false);
    forall q, vs, l, waits | OnTour(r.sys, q, vs, l, waits) ensures OnTour(u.sys, q, vs, l, waits) {
      EnterStays(r.sys, u.sys, p, q, vs, l, waits);
    }
  }

  lemma EnterStays(s: Sys, t: Sys, p: nat, q: nat, ws: seq<nat>, k: nat, blocked: bool)
    requires OnTour(s, q, ws, k, blocked) && SysInv(t) && t.cpu.Idle? && p !in s.pcbs && t.pcbs.Keys == s.pcbs.Keys + {p}
    requires forall x :: x in s.pcbs ==> t.pcbs[x] == s.pcbs[x]
    requires Grown(s.mem, t.mem) && forall pg :: pg in s.mem.ents ==> pg in t.mem.ents
    ensures OnTour(t, q, ws, k, blocked)
  {
    hide SysInv;
  }

  lemma OnTourFacts(s: Sys, p: nat, ws: seq<nat>, k: nat, blocked: bool)
    requires OnTour(s, p, ws, k, blocked)
    ensures SysInv(s) && Inv(s.mem) && Tables(s.mem) && s.cpu.Idle? && p in s.pcbs
    ensures forall i :: 0 <= i < |ws| ==> Page(p, ws[i]) in s.mem.ents
  {
    hide SysInv;
    SysMemInv(s);
  }

  lemma Newcomer(s: Sys, p: nat, pages: nat, ws: seq<nat>) returns (mv: Move, t: Sys)
    requires SysInv(s) && Inv(s.mem) && s.cpu.Idle? && p < 100 && p !in s.pcbs && Addressable(s.mem.pageSize, ws)
    requires (forall i :: 0 <= i < |ws| ==> ws[i] < pages) && |s.mem.ents| + pages <= |s.mem.taken|
    ensures mv.Start? && mv.pid == p && Enabled(s, mv) && StepDefined(s, mv) && Advance(s, mv) == Ok(t)
    ensures OnTour(t, p, ws, 0, false) && t.pcbs.Keys == s.pcbs.Keys + {p}
    ensures forall pg :: pg in t.mem.ents <==> pg in s.mem.ents || (pg.pid == p && pg.index < pages)
    ensures forall q :: q in s.pcbs ==> t.pcbs[q] == s.pcbs[q]
  {
    hide SysInv, Inv, Addressable, Tour, FreeIds, MoveRight, ProgramOk, Advance;
    var P := s.mem.pageSize;
    TourOk(P, ws);
    mv := Start(p, pages, Tour(P, ws), TourContext(p));
    SwapHasRoom(s.mem, pages);
    SysDefined(s, mv);
    StartRight(s, mv);
    t := Advance(s, mv).value;
    AdvanceGrows(s, mv);
    Entered(s, mv, t);
  }

  lemma NewEvent(s: Sys, mv: Move, t: Sys)
    requires SysInv(s) && mv.Start? && MoveDoes(s, mv, t)
    ensures Inv(s.mem) && Effect(s.mem, t.mem, New(mv.pid))
  {
    hide Inv, Effect;
  }

  lemma Entered(s: Sys, mv: Move, t: Sys)
    requires SysInv(s) && s.cpu.Idle? && mv.Start? && Enabled(s, mv) && StepDefined(s, mv) && Advance(s, mv) == Ok(t)
    ensures t.cpu == s.cpu && t.pcbs == s.pcbs[mv.pid := Pcb(mv.ctx, mv.prog, Ready)]
    ensures forall pg :: pg in t.mem.ents <==> pg in s.mem.ents || (pg.pid == mv.pid && pg.index < mv.pages)
  {
    hide Inv, Create, Sendable, ProgramOk;
    CreatedPages(s.mem, mv.pid, mv.pages);
  }

  lemma CreatedPages(m: Memory, pid: nat, k: nat)
    requires Inv(m) && pid !in m.count && Create(m, pid, k).Ok?
    ensures forall pg :: pg in Create(m, pid, k).value.ents <==> pg in m.ents || (pg.pid == pid && pg.index < k)
  {
    hide Inv, Create, Reserve;
    CreateCreated(m, pid, k);
  }

  lemma StartTraces(r: Recorded, mv: Move)
    requires SysInv(r.sys) && mv.Start? && Record(r, mv).Ok?
    ensures Record(r, mv).value.traces.Keys == r.traces.Keys + {mv.pid}
  {
    hide SysInv, Inv, Enabled, Advance, Seen;
    SysDefined(r.sys, mv);
  }

  // ---------------------------------------------------------------------- one store

  predicate Here(m: Memory, pg: Page) {
    pg in m.ents && m.ents[pg].present
  }

  /** The page is absent: the process waits for it. */
  lemma Miss(m: Memory, all: seq<Move>, r: Recorded, p: nat, ws: seq<nat>, k: nat) returns (more: seq<Move>, u: Recorded)
    requires Reached(m, all, r) && OnTour(r.sys, p, ws, k, false) && k < |ws|
    requires !Here(r.sys.mem, Page(p, ws[k]))
    ensures Reached(m, all + more, u) && OnTour(u.sys, p, ws, k, true)
    ensures u.sys.mem == r.sys.mem && Inv(r.sys.mem) && SysInv(r.sys)
    ensures forall q, vs, l, waits :: q != p && OnTour(r.sys, q, vs, l, waits) ==> OnTour(u.sys, q, vs, l, waits)
    ensures forall q :: q in r.sys.pcbs ==> Steps(u, q) == Steps(r, q)
  {
    hide SysInv, Inv, Reached, Seen, Steps, MachineStep, OperandPage, OperandHere, AtOp, Addressable;
    TourOperand(r.sys, p, ws, k, false);
    more, u := FaultTurn(m, all, r, p);
    SysMemInv(r.sys);
    SamePc(r, u, p);
    forall q, vs, l, waits | q != p && OnTour(r.sys, q, vs, l, waits) ensures OnTour(u.sys, q, vs, l, waits) {
      TourStays(r, u, p, q, vs, l, waits);
    }
  }

  /** Its fault is served. */
  lemma Fetch(m: Memory, all: seq<Move>, r: Recorded, p: nat, ws: seq<nat>, k: nat) returns (u: Recorded)
    requires Reached(m, all, r) && OnTour(r.sys, p, ws, k, true)
    requires FirstFree(r.sys.mem.owners) < |r.sys.mem.owners| || Victim(r.sys.mem).Some?
    ensures Reached(m, all + [Serve(p)], u) && OnTour(u.sys, p, ws, k, false)
    ensures Inv(r.sys.mem) && Effect(r.sys.mem, u.sys.mem, Loaded(Page(p, ws[k]))) && Grown(r.sys.mem, u.sys.mem)
    ensures Inv(u.sys.mem)
    ensures forall q, vs, l, waits :: q != p && OnTour(r.sys, q, vs, l, waits) ==> OnTour(u.sys, q, vs, l, waits)
    ensures SysInv(r.sys) && forall q :: q in r.sys.pcbs ==> Steps(u, q) == Steps(r, q)
  {
    hide SysInv, Inv, Reached, Seen, Steps, Advance, Effect, MoveDoes, Pending, FirstFree, Victim, Addressable;
    SysMemInv(r.sys);
    SysDefined(r.sys, Serve(p));
    ServeDies(r.sys, p);
    var t := Advance(r.sys, Serve(p)).value;
    ServeRight(r.sys, p);
    AdvanceGrows(r.sys, Serve(p));
    Served(r.sys, p, ws[k]);
    u := Go(m, all, r, Serve(p), t);
    SysMemInv(t);
    forall q, vs, l, waits | q != p && OnTour(r.sys, q, vs, l, waits) ensures OnTour(u.sys, q, vs, l, waits) {
      TourStays(r, u, p, q, vs, l, waits);
    }
  }

  lemma Served(s: Sys, p: nat, w: nat)
    requires SysInv(s) && Inv(s.mem) && Enabled(s, Serve(p)) && StepDefined(s, Serve(p)) && Advance(s, Serve(p)).Ok?
    requires s.pcbs[p].status == Blocked(w)
    ensures var t := Advance(s, Serve(p)).value;
            && t.cpu == s.cpu && Beside(s, t, p) && t.pcbs[p].status.Ready? && t.pcbs[p].prog == s.pcbs[p].prog
            && t.pcbs[p].ctx.pc == s.pcbs[p].ctx.pc && t.mem.ents.Keys == s.mem.ents.Keys
            && Effect(s.mem, t.mem, Loaded(Page(p, w)))
  {
    hide Inv, ServeFault, Sendable, ProgramOk, Effect;
    assert PcbOk(s, p);
    LoadEffect(s.mem, Page(p, w));
    LoadedKeys(s.mem, ServeFault(s.mem, Page(p, w)).value, Page(p, w));
  }

  lemma LoadedKeys(m: Memory, n: Memory, pg: Page)
    requires Inv(m) && Effect(m, n, Loaded(pg))
    ensures n.ents.Keys == m.ents.Keys
  {
    hide Inv;
  }

  /** The page is there: the store is made. */
  lemma Hit(m: Memory, all: seq<Move>, r: Recorded, p: nat, ws: seq<nat>, k: nat) returns (more: seq<Move>, u: Recorded)
    requires Reached(m, all, r) && OnTour(r.sys, p, ws, k, false) && k < |ws|
    requires Here(r.sys.mem, Page(p, ws[k]))
    ensures Reached(m, all + more, u) && OnTour(u.sys, p, ws, k + 1, false)
    ensures Inv(r.sys.mem) && Effect(r.sys.mem, u.sys.mem, Used(Page(p, ws[k]))) && Grown(r.sys.mem, u.sys.mem)
    ensures SysInv(r.sys) && Inv(u.sys.mem)
    ensures forall q, vs, l, waits :: q != p && OnTour(r.sys, q, vs, l, waits) ==> OnTour(u.sys, q, vs, l, waits)
  {
    hide SysInv, Inv, Reached, Seen, MachineStep, OperandPage, OperandHere, AtOp, Addressable, Effect;
    TourOperand(r.sys, p, ws, k, false);
    more, u := UseTurn(m, all, r, p);
    SeenPcIs(u.sys, p);
    UsedKeys(r.sys.mem, u.sys.mem, Page(p, ws[k]));
    SysMemInv(u.sys);
    forall q, vs, l, waits | q != p && OnTour(r.sys, q, vs, l, waits) ensures OnTour(u.sys, q, vs, l, waits) {
      TourStays(r, u, p, q, vs, l, waits);
    }
  }

  lemma UsedKeys(m: Memory, n: Memory, pg: Page)
    requires Inv(m) && Effect(m, n, Used(pg))
    ensures n.ents.Keys == m.ents.Keys
  {
    hide Inv;
  }

  lemma SamePc(r: Recorded, u: Recorded, p: nat)
    requires SysInv(r.sys) && SysInv(u.sys) && r.sys.cpu.Idle? && u.sys.cpu.Idle? && SameFor(r, u, p)
    ensures u.sys.pcbs[p].ctx.pc == r.sys.pcbs[p].ctx.pc
  {
    hide SysInv, Seen;
    SeenPcIs(r.sys, p);
    SeenPcIs(u.sys, p);
  }

  /** It waits for a page, and its service kills the memory process. */
  lemma DiesWaiting(m: Memory, all: seq<Move>, u: Recorded, p: nat, ws: seq<nat>, k: nat)
    requires Reached(m, all, u) && OnTour(u.sys, p, ws, k, true)
    requires FirstFree(u.sys.mem.owners) == |u.sys.mem.owners| && Victim(u.sys.mem) == None
    ensures Initial(m) && Dies(m, all, p)
  {
    hide Initial, Inv, SysInv, RunMoves, Addressable, Victim, FirstFree, Advance;
    SysDefined(u.sys, Serve(p));
    ServeDies(u.sys, p);
  }

  lemma Chained(all: seq<Move>, a: seq<Move>, b: seq<Move>, c: seq<Move>)
    ensures all + (a + b + c) == all + a + b + c
  {
  }
}
