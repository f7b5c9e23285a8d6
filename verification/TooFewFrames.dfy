/** With fewer frames than processes that can run, page-fault service can die: when every frame
    holds a page that was loaded and not yet used. */
module TooFewFrames {
  import opened Words
  import opened Paging
  import opened History
  import opened Replacement
  import opened Accounting
  import opened System
  import opened Schedules
  import opened Operands
  import opened EnoughFrames
  import opened Progress
  import opened Tours

  /** Exactly the first pages of the processes 0..n-1 exist, no page was ever used, and exactly
      those of the first k are loaded. */
  ghost predicate LoadedUnused(m: Memory, n: nat, k: nat) {
    && m.touched == [] && m.clock == 0 && m.ents.Keys == FirstPages(n)
    && forall pg :: pg in m.ents ==> m.ents[pg].stamp == MAX_LRU && (m.ents[pg].present <==> pg.pid < k)
  }

  ghost function FirstPages(n: nat): (s: set<Page>)
    ensures forall pg :: pg in s <==> pg.pid < n && pg.index == 0
    ensures |s| == n
  {
    if n == 0 then {} else FirstPages(n - 1) + {Page(n - 1, 0)}
  }

  const ONCE: seq<nat> := [0]

  /** n processes have entered, each before a store to its page and none waiting. */
  ghost predicate Crowd(s: Sys, n: nat, k: nat) {
    && s.cpu.Idle? && s.mem.pageSize >= 4 && LoadedUnused(s.mem, n, k)
    && forall p: nat :: p < n ==> OnTour(s, p, ONCE, 0, false)
  }

  // ------------------------------------------------------------------------ memory

  lemma EnterLeaves(m: Memory, t: Memory, n: nat)
    requires LoadedUnused(m, n, 0) && Inv(m) && Effect(m, t, New(n))
    requires forall pg :: pg in t.ents <==> pg in m.ents || (pg.pid == n && pg.index < 1)
    ensures LoadedUnused(t, n + 1, 0)
  {
    hide Inv;
    KeysGrow(m, t, n);
  }

  lemma KeysGrow(m: Memory, t: Memory, n: nat)
    requires m.ents.Keys == FirstPages(n)
    requires forall pg :: pg in t.ents <==> pg in m.ents || (pg.pid == n && pg.index < 1)
    ensures t.ents.Keys == FirstPages(n + 1)
  {
    forall pg ensures pg in t.ents <==> pg in FirstPages(n + 1) {
      assert pg in m.ents <==> pg in FirstPages(n);
    }
  }

  lemma LoadLeaves(m: Memory, t: Memory, n: nat, k: nat)
    requires LoadedUnused(m, n, k) && Inv(m) && Effect(m, t, Loaded(Page(k, 0))) && FirstFree(m.owners) < |m.owners|
    ensures LoadedUnused(t, n, k + 1)
  {
    hide Inv, FirstFree;
  }

  /** A frame is free exactly when fewer pages are resident than there are frames. */
  lemma FullIff(m: Memory, pages: set<Page>)
    requires Inv(m) && forall pg :: pg in pages <==> pg in m.ents && m.ents[pg].present
    ensures FirstFree(m.owners) < |m.owners| <==> |pages| < |m.owners|
    ensures FirstFree(m.owners) <= |m.owners|
  {
    FramesAccounted(m);
    hide Inv;
    assert pages == ResidentPages(m);
    if FirstFree(m.owners) < |m.owners| {
      assert FirstFree(m.owners) in FreeFrames(m);
    } else {
      NoFreeFrame(m);
    }
  }

  lemma UnusedFull(m: Memory, n: nat, k: nat)
    requires Inv(m) && LoadedUnused(m, n, k) && k <= n
    ensures FirstFree(m.owners) < |m.owners| <==> k < |m.owners|
    ensures FirstFree(m.owners) <= |m.owners| && Victim(m) == None
  {
    hide Inv, FirstFree;
    FullIff(m, FirstPages(k));
    if m.policy.Lru? {
      VictimLowest(m);
    }
  }

  // ----------------------------------------------------------------------- the run

  lemma Empty(m: Memory)
    requires Initial(m)
    ensures Reached(m, [], Boot(m)) && Boot(m).traces == map[] && Boot(m).sys.cpu.Idle?
    ensures Boot(m).sys.mem == m && Inv(m) && m.ents == map[]
  {
    InitialInv(m);
  }

  lemma OnceFits(P: nat)
    requires P >= 4
    ensures Addressable(P, ONCE)
  {
  }

  /** n processes enter. */
  lemma {:induction false} Gathered(m: Memory, n: nat) returns (all: seq<Move>, r: Recorded)
    requires Initial(m) && m.pageSize >= 4 && n <= |m.taken| && n <= 100
    ensures Reached(m, all, r) && Crowd(r.sys, n, 0) && Grown(m, r.sys.mem)
    ensures forall p: nat :: p in r.traces ==> p < n
  {
    hide Inv, SysInv, Reached, Initial, LoadedUnused, OnTour;
    if n == 0 {
      all, r := [], Boot(m);
      Empty(m);
      NothingYet(m);
    } else {
      var before, v := Gathered(m, n - 1);
      all, r := OneMore(m, before, v, n - 1);
    }
  }

  lemma OneMore(m: Memory, before: seq<Move>, v: Recorded, n: nat) returns (all: seq<Move>, r: Recorded)
    requires Reached(m, before, v) && Crowd(v.sys, n, 0) && Grown(m, v.sys.mem) && n < |m.taken| && n < 100
    requires forall p: nat :: p in v.traces ==> p < n
    ensures Reached(m, all, r) && Crowd(r.sys, n + 1, 0) && Grown(m, r.sys.mem)
    ensures forall p: nat :: p in r.traces ==> p < n + 1
  {
    hide Inv, SysInv, Reached, LoadedUnused, OnTour, Addressable, Effect;
    OnceFits(v.sys.mem.pageSize);
    PagesFit(v.sys.mem, n);
    var more;
    more, r := Enter(m, before, v, n, 1, ONCE);
    all := before + more;
    EnterLeaves(v.sys.mem, r.sys.mem, n);
    OnTourFacts(r.sys, n, ONCE, 0, false);
  }

  lemma NothingYet(m: Memory)
    requires Initial(m)
    ensures LoadedUnused(m, 0, 0)
  {
  }

  lemma PagesFit(m: Memory, n: nat)
    requires LoadedUnused(m, n, 0)
    ensures |m.ents| == n
  {
    assert |m.ents| == |m.ents.Keys|;
  }

  /** The first k of them fault, and their faults are served from free frames. */
  lemma {:induction false} Gather(m: Memory, n: nat, k: nat) returns (all: seq<Move>, r: Recorded)
    requires Initial(m) && m.pageSize >= 4 && k <= n <= |m.taken| && n <= 100 && k <= |m.owners|
    ensures Reached(m, all, r) && Crowd(r.sys, n, k) && Grown(m, r.sys.mem)
  {
    hide Inv, SysInv, Reached, Initial, LoadedUnused, OnTour, Effect, FirstFree, Victim;
    if k == 0 {
      all, r := Gathered(m, n);
    } else {
      var before, v := Gather(m, n, k - 1);
      var more, w;
      NotLoaded(v.sys, n, k - 1, k - 1);
      more, w := Miss(m, before, v, k - 1, ONCE, 0);
      UnusedFull(w.sys.mem, n, k - 1);
      r := Fetch(m, before + more, w, k - 1, ONCE, 0);
      all := before + more + [Serve(k - 1)];
      LoadLeaves(w.sys.mem, r.sys.mem, n, k - 1);
      OnTourFacts(r.sys, k - 1, ONCE, 0, false);
    }
  }

  lemma NotLoaded(s: Sys, n: nat, k: nat, p: nat)
    requires Crowd(s, n, k) && k <= p < n
    ensures !Here(s.mem, Page(p, 0))
  {
    hide OnTour;
  }

  /** With fewer than a hundred frames, pages of at least a word and one swap block more than
      frames, there is a run of the system after which a pending page fault kills the memory
      process: one process more than frames, each of which has had its page loaded and none
      of which has used it. */
  lemma FewerFramesCanDie(m: Memory) returns (all: seq<Move>)
    requires Initial(m) && m.pageSize >= 4 && |m.owners| < |m.taken| && |m.owners| < 100
    ensures Dies(m, all, |m.owners|)
  {
    hide Inv, SysInv, Reached, Initial, LoadedUnused, OnTour, FirstFree, Victim, Dies;
    var F := |m.owners|;
    var before, r := Gather(m, F + 1, F);
    NotLoaded(r.sys, F + 1, F, F);
    var more, u := Miss(m, before, r, F, ONCE, 0);
    UnusedFull(u.sys.mem, F + 1, F);
    all := before + more;
    DiesWaiting(m, all, u, F, ONCE, 0);
  }
}
