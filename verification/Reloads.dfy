/** When a retry can fault again: under LRU, because loading a page leaves its old stamp in
    place, a page that comes back can be the next one to go before its process gets to use it. */
module Reloads {
  import opened Words
  import opened Paging
  import opened History
  import opened Replacement
  import opened Accounting
  import opened Cpu
  import opened System
  import opened Schedules
  import opened Operands
  import opened EnoughFrames
  import opened Restarts
  import opened Progress
  import opened TooFewFrames
  import opened Tours
  import opened LateDeaths

  // -------------------------------------------------- two processes on F frames

  const TWICE: seq<nat> := [0, 0]

  /** The pages 0 to F - 1 and then page 0 again. */
  function Round(F: nat): (ws: seq<nat>)
    ensures |ws| == F + 1 && ws[F] == 0 && forall i :: 0 <= i < F ==> ws[i] == i
  {
    seq(F + 1, i => if i < F then i else 0)
  }

  /** Process 0 stores twice to its only page; process 1 goes round its F pages. */
  ghost predicate Two(s: Sys, F: nat, i: nat, waits0: bool, j: nat, waits1: bool) {
    OnTour(s, 0, TWICE, i, waits0) && OnTour(s, 1, Round(F), j, waits1)
  }

  ghost function AllPages(F: nat): set<Page> {
    PagesOf(0, 1) + PagesOf(1, F)
  }

  /** Exactly these pages are resident. */
  ghost predicate Holding(m: Memory, F: nat, res: set<Page>) {
    && m.policy.Lru? && |m.owners| == F && m.ents.Keys == AllPages(F) && res <= AllPages(F)
    && forall pg :: pg in m.ents ==> (m.ents[pg].present <==> pg in res)
  }

  /** Process 0 used its page first, then process 1 its pages in order. */
  ghost predicate Used0Then(m: Memory, F: nat, j: nat) {
    && m.ents.Keys == AllPages(F) && j <= F && m.clock == j + 1 && m.ents[Page(0, 0)].stamp == 1
    && forall i: nat :: i < j ==> m.ents[Page(1, i)].stamp == i + 2
  }

  lemma FullHolding(m: Memory, F: nat, res: set<Page>)
    requires Inv(m) && Holding(m, F, res)
    ensures FirstFree(m.owners) < |m.owners| <==> |res| < F
    ensures FirstFree(m.owners) <= |m.owners|
  {
    hide Inv, FirstFree;
    FullIff(m, res);
  }

  /** The resident page with the least stamp goes. */
  lemma LowestGoes(m: Memory, v: Page)
    requires Inv(m) && m.policy.Lru? && v in m.ents && m.ents[v].present && m.ents[v].stamp < MAX_LRU
    requires forall q :: q in m.ents && m.ents[q].present && q != v ==> m.ents[v].stamp < m.ents[q].stamp
    ensures Victim(m) == Some(v)
  {
    hide Inv, Victim;
    VictimLowest(m);
  }

  /** A load with a frame free, and one that takes v out. */
  lemma LoadHolding(m: Memory, n: Memory, F: nat, res: set<Page>, pg: Page)
    requires Inv(m) && Holding(m, F, res) && Effect(m, n, Loaded(pg)) && |n.owners| == |m.owners|
    requires FirstFree(m.owners) < |m.owners|
    ensures Holding(n, F, res + {pg})
  {
    hide Inv, FirstFree, Victim, AfterChoice, AllPages;
  }

  lemma SwapHolding(m: Memory, n: Memory, F: nat, res: set<Page>, pg: Page, v: Page)
    requires Inv(m) && Holding(m, F, res) && Effect(m, n, Loaded(pg)) && |n.owners| == |m.owners|
    requires FirstFree(m.owners) == |m.owners| && Victim(m) == Some(v) && v != pg
    ensures Holding(n, F, res - {v} + {pg})
  {
    hide Inv, FirstFree, Victim, AfterChoice, AllPages;
  }

  lemma LoadKeepsStamps(m: Memory, n: Memory, F: nat, pg: Page, j: nat)
    requires Inv(m) && Effect(m, n, Loaded(pg))
    ensures n.clock == m.clock && (Used0Then(m, F, j) ==> Used0Then(n, F, j))
  {
    hide Inv, FirstFree, Victim, AfterChoice;
    if Used0Then(m, F, j) {
      assert forall i: nat :: i < j ==> Page(1, i) in m.ents;
    }
  }

  lemma UseHolding(m: Memory, n: Memory, F: nat, res: set<Page>, j: nat)
    requires Inv(m) && Holding(m, F, res) && Used0Then(m, F, j) && j < F && Effect(m, n, Used(Page(1, j)))
    requires |n.owners| == |m.owners|
    ensures Holding(n, F, res) && Used0Then(n, F, j + 1)
  {
    hide Inv, AllPages;
    UseStamps(m, n, F, j);
  }

  lemma UseStamps(m: Memory, n: Memory, F: nat, j: nat)
    requires Inv(m) && Used0Then(m, F, j) && j < F && Effect(m, n, Used(Page(1, j)))
    ensures Used0Then(n, F, j + 1)
  {
    hide Inv;
    forall i: nat | i < j + 1 ensures n.ents[Page(1, i)].stamp == i + 2 {
      assert Page(1, i) in m.ents;
    }
  }

  // ------------------------------------------------------------------------- the run

  /** Process 0 has entered, then both have, and nothing has happened. */
  lemma Begin1(m: Memory) returns (all: seq<Move>, r: Recorded)
    requires Initial(m) && m.policy.Lru? && m.pageSize >= 4 && Addressable(m.pageSize, TWICE) && 0 < |m.taken|
    ensures Reached(m, all, r) && OnTour(r.sys, 0, TWICE, 0, false) && Inv(m) && Effect(m, r.sys.mem, New(0))
    ensures r.sys.mem.ents.Keys == PagesOf(0, 1) && r.traces.Keys == {0} && Grown(m, r.sys.mem)
  {
    hide SysInv, Inv, Addressable, Reached, OnTour, Effect, RunMoves, Initial;
    Empty(m);
    var a;
    a, r := Enter(m, [], Boot(m), 0, 1, TWICE);
    all := a;
    assert [] + a == a;
    assert r.sys.mem.ents.Keys == PagesOf(0, 1);
  }

  lemma Begin2(m: Memory) returns (all: seq<Move>, r: Recorded)
    requires Initial(m) && m.policy.Lru? && m.pageSize >= 4 && 0 < |m.owners| < |m.taken| && AddressFits(m)
    ensures Reached(m, all, r) && Two(r.sys, |m.owners|, 0, false, 0, false) && Holding(r.sys.mem, |m.owners|, {})
    ensures r.sys.mem.clock == 0
  {
    hide SysInv, Inv, Addressable, AddressFits, Reached, OnTour, Effect, RunMoves, Initial, Round, Holding;
    var F := |m.owners|;
    RoundAddresses(m);
    RoundBounds(F);
    var a, r1 := Begin1(m);
    OnTourFacts(r1.sys, 0, TWICE, 0, false);
    var b;
    b, r := Enter(m, a, r1, 1, F, Round(F));
    all := a + b;
    OnTourFacts(r.sys, 1, Round(F), 0, false);
    NothingHeld(m, r1.sys.mem, r.sys.mem, F);
  }

  lemma RoundBounds(F: nat)
    requires F > 0
    ensures forall i :: 0 <= i < |Round(F)| ==> Round(F)[i] < F
  {
  }

  lemma RoundAddresses(m: Memory)
    requires AddressFits(m) && m.pageSize >= 4 && |m.owners| > 0
    ensures Addressable(m.pageSize, TWICE) && Addressable(m.pageSize, Round(|m.owners|))
  {
    var F, P := |m.owners|, m.pageSize;
    FrameBound(F, P);
    forall w: nat | w <= F ensures Nameable(P, w) {
      AddressBound(F, P, w);
    }
  }

  lemma NothingHeld(m: Memory, n: Memory, t: Memory, F: nat)
    requires Initial(m) && Inv(m) && m.policy.Lru? && Effect(m, n, New(0)) && Inv(n) && Effect(n, t, New(1)) && |t.owners| == F
    requires n.ents.Keys == PagesOf(0, 1)
    requires forall pg :: pg in t.ents <==> pg in n.ents || (pg.pid == 1 && pg.index < F)
    ensures Holding(t, F, {}) && t.clock == 0
  {
    hide Inv;
    assert t.ents.Keys == AllPages(F);
  }

  /** Process 0 makes its first store. */
  lemma First0(m: Memory, all: seq<Move>, r: Recorded, F: nat) returns (more: seq<Move>, u: Recorded)
    requires Reached(m, all, r) && Two(r.sys, F, 0, false, 0, false) && Holding(r.sys.mem, F, {}) && F > 0 && r.sys.mem.clock == 0
    ensures Reached(m, all + more, u) && Two(u.sys, F, 1, false, 0, false)
    ensures Holding(u.sys.mem, F, PagesOf(0, 1)) && Used0Then(u.sys.mem, F, 0)
  {
    hide SysInv, Inv, Addressable, Reached, OnTour, Effect, Round, FirstFree, Victim, Steps, Holding, Used0Then, Grown;
    var a, w := Fetched0(m, all, r, F);
    HeldHere(w.sys.mem, F, PagesOf(0, 1), Page(0, 0));
    var b;
    b, u := Hit(m, all + a, w, 0, TWICE, 0);
    more := a + b;
    assert all + more == all + a + b;
    SameFrames(w.sys.mem, u.sys.mem);
    FirstUse0(w.sys.mem, u.sys.mem, F);
  }

  lemma Fetched0(m: Memory, all: seq<Move>, r: Recorded, F: nat) returns (more: seq<Move>, u: Recorded)
    requires Reached(m, all, r) && Two(r.sys, F, 0, false, 0, false) && Holding(r.sys.mem, F, {}) && F > 0 && r.sys.mem.clock == 0
    ensures Reached(m, all + more, u) && Two(u.sys, F, 0, false, 0, false)
    ensures Holding(u.sys.mem, F, PagesOf(0, 1)) && u.sys.mem.clock == 0
  {
    hide SysInv, Inv, Addressable, Reached, OnTour, Effect, Round, FirstFree, Victim, Steps, Holding, Used0Then, Grown;
    NotHeld(r.sys.mem, F, {}, Page(0, 0));
    var a, v := Miss(m, all, r, 0, TWICE, 0);
    FullHolding(v.sys.mem, F, {});
    u := Fetch(m, all + a, v, 0, TWICE, 0);
    SameFrames(v.sys.mem, u.sys.mem);
    LoadHolding(v.sys.mem, u.sys.mem, F, {}, Page(0, 0));
    LoadKeepsStamps(v.sys.mem, u.sys.mem, F, Page(0, 0), 0);
    more := a + [Serve(0)];
    assert all + more == all + a + [Serve(0)];
    assert {} + {Page(0, 0)} == PagesOf(0, 1);
  }

  lemma HeldHere(m: Memory, F: nat, res: set<Page>, pg: Page)
    requires Holding(m, F, res) && pg in res
    ensures Here(m, pg)
  {
    hide AllPages;
  }

  lemma NotHeld(m: Memory, F: nat, res: set<Page>, pg: Page)
    requires Holding(m, F, res) && pg !in res
    ensures !Here(m, pg)
  {
    hide AllPages;
  }

  lemma FirstUse0(m: Memory, n: Memory, F: nat)
    requires Inv(m) && Holding(m, F, PagesOf(0, 1)) && m.clock == 0 && Effect(m, n, Used(Page(0, 0)))
    requires |n.owners| == |m.owners|
    ensures Holding(n, F, PagesOf(0, 1)) && Used0Then(n, F, 0)
  {
    hide Inv;
  }

  /** What is in memory after j stores of process 1. */
  ghost function After(F: nat, j: nat): (res: set<Page>)
    requires 0 < F && j <= F
    ensures |res| == if j < F then j + 1 else F
  {
    if j < F then PagesOf(0, 1) + PagesOf(1, j) else PagesOf(1, F)
  }

  /** Process 1 makes its stores to new pages; the last of them takes out the page of 0. */
  lemma {:induction false} Around(m: Memory, all: seq<Move>, r: Recorded, F: nat, j: nat)
      returns (more: seq<Move>, u: Recorded)
    requires Reached(m, all, r) && Two(r.sys, F, 1, false, 0, false) && 0 < F && j <= F
    requires Holding(r.sys.mem, F, After(F, 0)) && Used0Then(r.sys.mem, F, 0)
    ensures Reached(m, all + more, u) && Two(u.sys, F, 1, false, j, false)
    ensures Holding(u.sys.mem, F, After(F, j)) && Used0Then(u.sys.mem, F, j)
  {
    hide Reached, Two, Holding, Used0Then, After;
    if j == 0 {
      more, u := [], r;
      assert all + [] == all;
    } else {
      more, u := Around(m, all, r, F, j - 1);
      var last;
      var before := all + more;
      last, u := Onward(m, before, u, F, j - 1);
      assert all + (more + last) == before + last;
      more := more + last;
    }
  }

  /** One of them. */
  lemma Onward(m: Memory, all: seq<Move>, r: Recorded, F: nat, j: nat) returns (more: seq<Move>, u: Recorded)
    requires Reached(m, all, r) && Two(r.sys, F, 1, false, j, false) && j < F
    requires Holding(r.sys.mem, F, After(F, j)) && Used0Then(r.sys.mem, F, j)
    ensures Reached(m, all + more, u) && Two(u.sys, F, 1, false, j + 1, false)
    ensures Holding(u.sys.mem, F, After(F, j + 1)) && Used0Then(u.sys.mem, F, j + 1)
  {
    hide SysInv, Inv, Addressable, Reached, OnTour, Effect, FirstFree, Victim, Steps, Holding, Used0Then, After, Grown;
    var ws := Round(F);
    InAfter(F, j);
    NotHeld(r.sys.mem, F, After(F, j), Page(1, j));
    var a, v := Miss(m, all, r, 1, ws, j);
    FullHolding(v.sys.mem, F, After(F, j));
    if j == F - 1 {
      ZeroGoes(v.sys.mem, F, j);
    }
    var w := Fetch(m, all + a, v, 1, ws, j);
    SameFrames(v.sys.mem, w.sys.mem);
    Arrives(v.sys.mem, w.sys.mem, F, j);
    HeldHere(w.sys.mem, F, After(F, j + 1), Page(1, j));
    var b;
    b, u := Hit(m, all + a + [Serve(1)], w, 1, ws, j);
    SameFrames(w.sys.mem, u.sys.mem);
    more := a + [Serve(1)] + b;
    Chained(all, a, [Serve(1)], b);
    UseHolding(w.sys.mem, u.sys.mem, F, After(F, j + 1), j);
  }

  lemma SameFrames(m: Memory, n: Memory)
    requires Grown(m, n)
    ensures |n.owners| == |m.owners|
  {
  }

  lemma InAfter(F: nat, j: nat)
    requires j < F
    ensures Page(1, j) !in After(F, j) && Page(1, j) in After(F, j + 1)
  {
  }

  lemma ZeroGoes(m: Memory, F: nat, j: nat)
    requires j == F - 1 && Inv(m) && Holding(m, F, After(F, j)) && Used0Then(m, F, j)
    ensures Victim(m) == Some(Page(0, 0))
  {
    hide Inv, Victim;
    forall q | q in m.ents && m.ents[q].present && q != Page(0, 0) ensures m.ents[q].stamp > 1 {
      assert q == Page(1, q.index);
    }
    LowestGoes(m, Page(0, 0));
  }

  lemma AfterNext(F: nat, j: nat)
    requires j < F
    ensures After(F, j + 1) == (if j == F - 1 then After(F, j) - {Page(0, 0)} else After(F, j)) + {Page(1, j)}
  {
  }

  lemma Arrives(m: Memory, n: Memory, F: nat, j: nat)
    requires Inv(m) && j < F && Holding(m, F, After(F, j)) && Used0Then(m, F, j) && |n.owners| == |m.owners|
    requires Effect(m, n, Loaded(Page(1, j))) && (j == F - 1 ==> Victim(m) == Some(Page(0, 0)))
    ensures Holding(n, F, After(F, j + 1)) && Used0Then(n, F, j)
  {
    hide Inv, Victim, FirstFree, Effect, Holding, Used0Then, After;
    AfterNext(F, j);
    LoadKeepsStamps(m, n, F, Page(1, j), j);
    FullHolding(m, F, After(F, j));
    if j == F - 1 {
      SwapHolding(m, n, F, After(F, j), Page(1, j), Page(0, 0));
    } else {
      LoadHolding(m, n, F, After(F, j), Page(1, j));
    }
  }

  // --------------------------------------------------------------- the last round

  /** After the page of process 0 has come back for the first page of process 1. */
  ghost function Swapped(F: nat): (res: set<Page>)
    requires F > 0
    ensures |res| == F
  {
    PagesOf(1, F) - {Page(1, 0)} + {Page(0, 0)}
  }

  /** Process 0 waits for its page again; its service takes out the first page of 1. */
  lemma ComesBack(m: Memory, all: seq<Move>, r: Recorded, F: nat) returns (u: Recorded)
    requires F > 0 && Reached(m, all, r) && Two(r.sys, F, 1, true, F, false)
    requires Holding(r.sys.mem, F, PagesOf(1, F)) && Used0Then(r.sys.mem, F, F)
    ensures Reached(m, all + [Serve(0)], u) && Two(u.sys, F, 1, false, F, false) && 0 in r.sys.pcbs && 0 in u.sys.pcbs
    ensures Holding(u.sys.mem, F, Swapped(F)) && Used0Then(u.sys.mem, F, F) && Steps(u, 0) == Steps(r, 0)
  {
    hide SysInv, Inv, Addressable, Reached, OnTour, Effect, FirstFree, Victim, Steps, Holding, Used0Then, Grown, Round;
    OnTourFacts(r.sys, 0, TWICE, 1, true);
    FullHolding(r.sys.mem, F, PagesOf(1, F));
    FirstOfOneGoes(r.sys.mem, F);
    u := Fetch(m, all, r, 0, TWICE, 1);
    OnTourFacts(u.sys, 0, TWICE, 1, false);
    SameFrames(r.sys.mem, u.sys.mem);
    SwapHolding(r.sys.mem, u.sys.mem, F, PagesOf(1, F), Page(0, 0), Page(1, 0));
    LoadKeepsStamps(r.sys.mem, u.sys.mem, F, Page(0, 0), F);
  }

  lemma FirstOfOneGoes(m: Memory, F: nat)
    requires F > 0 && Inv(m) && Holding(m, F, PagesOf(1, F)) && Used0Then(m, F, F)
    ensures Victim(m) == Some(Page(1, 0))
  {
    hide Inv, Victim;
    forall q | q in m.ents && m.ents[q].present && q != Page(1, 0) ensures m.ents[q].stamp > 2 {
      assert q == Page(1, q.index);
    }
    LowestGoes(m, Page(1, 0));
  }

  /** Process 1 wants its first page back, and that of 0, with its old stamp, goes again. */
  lemma GoesAgain(m: Memory, all: seq<Move>, r: Recorded, F: nat) returns (more: seq<Move>, u: Recorded)
    requires F > 0 && Reached(m, all, r) && Two(r.sys, F, 1, false, F, false) && 0 in r.sys.pcbs
    requires Holding(r.sys.mem, F, Swapped(F)) && Used0Then(r.sys.mem, F, F)
    ensures Reached(m, all + more, u) && OnTour(u.sys, 0, TWICE, 1, false) && !Here(u.sys.mem, Page(0, 0))
    ensures Steps(u, 0) == Steps(r, 0)
  {
    hide SysInv, Inv, Addressable, Reached, OnTour, Effect, FirstFree, Victim, Steps, Holding, Used0Then, Grown;
    NotHeld(r.sys.mem, F, Swapped(F), Page(1, 0));
    var a, v := Miss(m, all, r, 1, Round(F), F);
    OnTourFacts(v.sys, 0, TWICE, 1, false);
    FullHolding(v.sys.mem, F, Swapped(F));
    OldStampGoes(v.sys.mem, F);
    u := Fetch(m, all + a, v, 1, Round(F), F);
    SameFrames(v.sys.mem, u.sys.mem);
    SwapHolding(v.sys.mem, u.sys.mem, F, Swapped(F), Page(1, 0), Page(0, 0));
    NotHeld(u.sys.mem, F, Swapped(F) - {Page(0, 0)} + {Page(1, 0)}, Page(0, 0));
    more := a + [Serve(1)];
    assert all + more == all + a + [Serve(1)];
  }

  lemma OldStampGoes(m: Memory, F: nat)
    requires F > 0 && Inv(m) && Holding(m, F, Swapped(F)) && Used0Then(m, F, F)
    ensures Victim(m) == Some(Page(0, 0))
  {
    hide Inv, Victim;
    forall q | q in m.ents && m.ents[q].present && q != Page(0, 0) ensures m.ents[q].stamp > 1 {
      assert q == Page(1, q.index);
    }
    LowestGoes(m, Page(0, 0));
  }

  /** Process 0 is put on the CPU and faults. */
  lemma FaultsAgain(m: Memory, all: seq<Move>, r: Recorded) returns (u: Recorded, v: Recorded)
    requires Reached(m, all, r) && OnTour(r.sys, 0, TWICE, 1, false) && !Here(r.sys.mem, Page(0, 0)) && 0 in r.sys.pcbs
    ensures Reached(m, all + [Dispatch(0)], u) && Reached(m, all + [Dispatch(0)] + [RunCycle], v)
    ensures 0 in u.sys.pcbs && u.sys.cpu.Busy? && u.sys.cpu.ctx.pid == 0 && Steps(u, 0) == Steps(r, 0)
    ensures v.sys.cpu.Busy? && v.sys.cpu.pageFault
  {
    hide SysInv, Inv, Reached, Steps, Seen, MachineStep, OperandPage, OperandHere, AtOp, AtExit, CycleDoes, Enabled, Addressable;
    TourOperand(r.sys, 0, TWICE, 1, false);
    u := DispatchIt(m, all, r, 0);
    SameOperandPage(r, u, 0);
    StillAbsent(r.sys, u.sys, 0);
    v := CycleIt(m, all + [Dispatch(0)], u, 0);
    AbsentFaults(u.sys, v.sys);
  }

  // ------------------------------------------------------------- main theorems

  /** Under LRU with more swap blocks than frames, whatever the number of frames, there is a
      run in which process 0 has its fault served, the page keeping a stamp from an earlier
      stay, and its retry faults again because another fault was served in between. */
  lemma LruRetryCanFault(m: Memory) returns (before: seq<Move>, mvs: seq<Move>)
    requires Initial(m) && m.policy.Lru? && m.pageSize >= 4 && 0 < |m.owners| < |m.taken| && AddressFits(m)
    ensures Retries(m, before, mvs, 0) && !LoadedForGood(m, before, 0) && !RetryCompletes(m, before, mvs, 0)
  {
    hide SysInv, Inv, Initial, Reached, OnTour, Steps, AddressFits, Holding, Used0Then, Retries, RetryCompletes, LoadedForGood;
    var F := |m.owners|;
    var a0, r0 := Begin2(m);
    var m1, r1 := First0(m, a0, r0, F);
    assert After(F, 0) == PagesOf(0, 1);
    var m2, r2 := Around(m, a0 + m1, r1, F, F);
    NotHeld(r2.sys.mem, F, After(F, F), Page(0, 0));
    var m3, r3 := Miss(m, a0 + m1 + m2, r2, 0, TWICE, 1);
    before := a0 + m1 + m2 + m3;
    var r4 := ComesBack(m, before, r3, F);
    var m5, r5 := GoesAgain(m, before + [Serve(0)], r4, F);
    OnTourFacts(r5.sys, 0, TWICE, 1, false);
    var r6, r7 := FaultsAgain(m, before + [Serve(0)] + m5, r5);
    mvs := m5 + [Dispatch(0)];
    assert before + [Serve(0)] + mvs == before + [Serve(0)] + m5 + [Dispatch(0)];
    RetryFaulted(m, before, mvs, r4, r6, r7);
    if LoadedForGood(m, before, 0) {
      RetryAmongServes(m, before, mvs, 0);
    }
  }

  lemma RetryFaulted(m: Memory, before: seq<Move>, mvs: seq<Move>, r: Recorded, u: Recorded, v: Recorded)
    requires Reached(m, before + [Serve(0)], r) && Reached(m, before + [Serve(0)] + mvs, u)
    requires Reached(m, before + [Serve(0)] + mvs + [RunCycle], v)
    requires 0 in u.sys.pcbs && u.sys.cpu.Busy? && u.sys.cpu.ctx.pid == 0 && Steps(u, 0) == Steps(r, 0)
    requires v.sys.cpu.Busy? && v.sys.cpu.pageFault
    ensures Retries(m, before, mvs, 0) && !RetryCompletes(m, before, mvs, 0)
  {
    hide RunMoves, Initial, Steps;
  }

  // -------------------------------------------------- nothing is ever taken out

  /** An absent page was never used. */
  ghost predicate AbsentUnused(m: Memory) {
    forall pg :: pg in m.ents && !m.ents[pg].present ==> m.ents[pg].stamp >= MAX_LRU
  }

  lemma MoveLeavesUnused(s: Sys, mv: Move)
    requires SysInv(s) && Enabled(s, mv) && StepDefined(s, mv) && Advance(s, mv).Ok?
    requires AbsentUnused(s.mem) && |s.mem.taken| <= |s.mem.owners|
    ensures AbsentUnused(Advance(s, mv).value.mem)
  {
    hide SysInv, Inv, Enabled, Advance, Effect, OperandPage;
    var t := Advance(s, mv).value;
    MoveEffect(s, mv);
    SysMemInv(s);
    SwapBoundsPages(s.mem);
    match mv
    case Start(p, _, _, _) => EventLeavesUnused(s.mem, t.mem, New(p));
    case Serve(p) =>
      BlockedAbsent(s, p);
      RoomForAbsent(s.mem, Page(p, s.pcbs[p].status.page));
      EventLeavesUnused(s.mem, t.mem, Loaded(Page(p, s.pcbs[p].status.page)));
    case Finish => EventLeavesUnused(s.mem, t.mem, Gone(s.cpu.ctx.pid));
    case RunCycle =>
      if OperandPage(s, s.cpu.ctx.pid).Some? && !t.cpu.pageFault {
        EventLeavesUnused(s.mem, t.mem, Used(OperandPage(s, s.cpu.ctx.pid).value));
      }
    case _ =>
  }

  lemma EventLeavesUnused(m: Memory, n: Memory, e: Event)
    requires Inv(m) && Tables(m) && Effect(m, n, e) && AbsentUnused(m) && (e.Loaded? ==> FirstFree(m.owners) < |m.owners|)
    ensures AbsentUnused(n)
  {
    hide Inv, Tables, FirstFree, Without, AfterChoice, Victim;
  }

  lemma {:induction false} RunLeavesUnused(m: Memory, mvs: seq<Move>)
    requires Initial(m) && |m.taken| <= |m.owners| && RunMoves(Boot(m), mvs).Ok?
    ensures AbsentUnused(RunMoves(Boot(m), mvs).value.sys.mem)
  {
    hide RecInv, SysInv, Inv, Pending, Record, Enabled, Advance;
    if mvs != [] {
      var before, mv := mvs[..|mvs| - 1], mvs[|mvs| - 1];
      assert mvs == before + [mv];
      LastMove(Boot(m), before, mv);
      RunLeavesUnused(m, before);
      RunGrown(m, before);
      MoveLeavesUnused(RunMoves(Boot(m), before).value.sys, mv);
    }
  }

  /** So the page of a fault is loaded for good. */
  lemma LoadedIntoRoom(m: Memory, before: seq<Move>, p: nat)
    requires Initial(m) && RunMoves(Boot(m), before + [Serve(p)]).Ok? && (m.policy.Fifo? || |m.taken| <= |m.owners|)
    ensures LoadedForGood(m, before, p)
  {
    hide SysInv, Inv, RunMoves, Initial, Advance;
    LastMove(Boot(m), before, Serve(p));
    RunGrown(m, before);
    BlockedAbsent(RunMoves(Boot(m), before).value.sys, p);
    if |m.taken| <= |m.owners| {
      RunLeavesUnused(m, before);
    }
  }

  /** Without a frame no fault is ever served. */
  lemma NoFrameNoService(m: Memory, before: seq<Move>, p: nat)
    requires Initial(m) && RunMoves(Boot(m), before + [Serve(p)]).Ok?
    ensures |m.owners| > 0
  {
    hide SysInv, Inv, RunMoves, Initial, OperandHere;
    ServedState(m, before, p);
    RunGrown(m, before + [Serve(p)]);
    var s := RunMoves(Boot(m), before + [Serve(p)]).value.sys;
    RunPending(m, before + [Serve(p)]);
    TracedPcb(RunMoves(Boot(m), before + [Serve(p)]).value, p);
    SysMemInv(s);
    HereHasFrame(s, p);
  }

  lemma HereHasFrame(s: Sys, p: nat)
    requires Inv(s.mem) && p in s.pcbs && OperandHere(s, p)
    ensures |s.mem.owners| > 0
  {
    hide Inv;
    FrameNonNegative(s.mem, OperandPage(s, p).value);
  }

  /** Exactly when every retry goes through, in every run of the system: under FIFO, or with
      no more swap blocks than frames, or with no frame at all. */
  lemma RetriesCompleteIff(m: Memory)
    requires Initial(m) && m.pageSize >= 4 && AddressFits(m)
    ensures (forall before, mvs, p :: Retries(m, before, mvs, p) ==> RetryCompletes(m, before, mvs, p)) <==>
              m.policy.Fifo? || |m.taken| <= |m.owners| || |m.owners| == 0
  {
    hide Initial, RetryCompletes, LoadedForGood, RunMoves, AddressFits;
    if m.policy.Lru? && 0 < |m.owners| < |m.taken| {
      var before, mvs := LruRetryCanFault(m);
    } else {
      forall before, mvs, p | Retries(m, before, mvs, p) ensures RetryCompletes(m, before, mvs, p) {
        NoFrameNoService(m, before, p);
        LoadedIntoRoom(m, before, p);
        RetryAmongServes(m, before, mvs, p);
      }
    }
  }
}
