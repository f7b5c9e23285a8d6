/** The stamps run out: once MAX_LRU accesses have been made, LRU no longer finds pages that are
    used, and fault service dies with any number of frames. And so when it can die at all. */
module LateDeaths {
  import opened Words
  import opened Paging
  import opened History
  import opened Replacement
  import opened Accounting
  import opened System
  import opened Schedules
  import opened EnoughFrames
  import opened Progress
  import opened TooFewFrames
  import opened Tours

  /** MAX_LRU stores to page 0, then one to each further page. */
  function LateTour(F: nat): (ws: seq<nat>)
    ensures |ws| == MAX_LRU + F
    ensures forall i :: 0 <= i < |ws| ==> ws[i] == if i < MAX_LRU then 0 else i - MAX_LRU + 1
  {
    seq(MAX_LRU + F, i => if i < MAX_LRU then 0 else i - MAX_LRU + 1)
  }

  /** How many pages have been touched before the k-th store. */
  function Arrived(k: nat): nat {
    if k == 0 then 0 else if k <= MAX_LRU then 1 else k - MAX_LRU + 1
  }

  /** Process 0 is before its k-th store, and its first a pages are in memory; only page 0
      may still have a stamp that LRU looks at. */
  ghost predicate Late(s: Sys, F: nat, k: nat, a: nat) {
    OnTour(s, 0, LateTour(F), k, false) && LateMemory(s.mem, F, k, a)
  }

  ghost predicate LateMemory(m: Memory, F: nat, k: nat, a: nat) {
    && m.policy.Lru? && |m.owners| == F && m.clock == k && m.ents.Keys == PagesOf(0, F + 1)
    && (forall pg :: pg in m.ents ==> (m.ents[pg].present <==> pg.index < a))
    && (forall pg :: pg in m.ents && m.ents[pg].stamp < MAX_LRU ==> pg.index == 0 && m.ents[pg].stamp == k)
  }

  /** The machine is small enough for every frame to have a logical address. */
  predicate AddressFits(m: Memory) {
    |m.owners| * m.pageSize < WORD
  }

  lemma LateAddresses(m: Memory)
    requires AddressFits(m) && m.pageSize >= 4
    ensures Addressable(m.pageSize, LateTour(|m.owners|))
  {
    var F, P := |m.owners|, m.pageSize;
    FrameBound(F, P);
    forall w: nat | w <= F ensures Nameable(P, w) {
      AddressBound(F, P, w);
    }
  }

  lemma FrameBound(F: nat, P: nat)
    requires F * P < WORD && P >= 4
    ensures F < 0x4000_0000
  {
    assert F * P >= F * 4;
  }

  lemma AddressBound(F: nat, P: nat, w: nat)
    requires F * P < WORD && w <= F
    ensures Nameable(P, w)
  {
    assert w * P <= F * P;
  }

  lemma LateStart(m: Memory) returns (all: seq<Move>, r: Recorded)
    requires Initial(m) && m.policy.Lru? && m.pageSize >= 4 && |m.owners| < |m.taken| && AddressFits(m)
    ensures Reached(m, all, r) && Late(r.sys, |m.owners|, 0, 0)
  {
    hide SysInv, Inv, Addressable, AddressFits, Reached, OnTour, LateTour, Effect, RunMoves, Initial;
    Empty(m);
    LateAddresses(m);
    var F := |m.owners|;
    all, r := Enter(m, [], Boot(m), 0, F + 1, LateTour(F));
    assert [] + all == all;
    LateBegin(m, r.sys.mem, F);
  }

  lemma LateBegin(m: Memory, n: Memory, F: nat)
    requires Initial(m) && Inv(m) && m.policy.Lru? && Effect(m, n, New(0)) && |n.owners| == F
    requires forall pg :: pg in n.ents <==> pg.pid == 0 && pg.index < F + 1
    ensures LateMemory(n, F, 0, 0)
  {
    hide Inv;
  }

  lemma TourPage(s: Sys, F: nat, k: nat, a: nat)
    requires Late(s, F, k, a) && k < MAX_LRU + F
    ensures SysInv(s) && Inv(s.mem) && Page(0, LateTour(F)[k]) in s.mem.ents && LateTour(F)[k] <= F
  {
    hide Inv, Addressable;
  }

  lemma LateUse(m: Memory, n: Memory, F: nat, k: nat, a: nat)
    requires Inv(m) && LateMemory(m, F, k, a) && k < MAX_LRU + F && Effect(m, n, Used(Page(0, LateTour(F)[k])))
    requires |n.owners| == |m.owners|
    ensures LateMemory(n, F, k + 1, a)
  {
    hide Inv;
  }

  /** One store to a page that is there. */
  lemma LateHit(m: Memory, all: seq<Move>, r: Recorded, F: nat, k: nat, a: nat) returns (more: seq<Move>, u: Recorded)
    requires Reached(m, all, r) && Late(r.sys, F, k, a) && k < MAX_LRU + F && LateTour(F)[k] < a
    ensures Reached(m, all + more, u) && Late(u.sys, F, k + 1, a)
  {
    hide SysInv, Inv, Addressable, Reached, OnTour, LateTour, Effect;
    TourPage(r.sys, F, k, a);
    more, u := Hit(m, all, r, 0, LateTour(F), k);
    LateUse(r.sys.mem, u.sys.mem, F, k, a);
  }

  lemma LateFull(m: Memory, F: nat, k: nat, a: nat)
    requires Inv(m) && LateMemory(m, F, k, a) && a <= F
    ensures FirstFree(m.owners) < |m.owners| <==> a < F
    ensures FirstFree(m.owners) <= |m.owners|
  {
    hide Inv, FirstFree;
    FullIff(m, PagesOf(0, a));
  }

  lemma LateLoad(m: Memory, n: Memory, F: nat, k: nat, a: nat)
    requires Inv(m) && LateMemory(m, F, k, a) && a < F && Effect(m, n, Loaded(Page(0, a)))
    requires FirstFree(m.owners) < |m.owners| && |n.owners| == |m.owners|
    ensures LateMemory(n, F, k, a + 1)
  {
    hide Inv, FirstFree;
  }

  /** The fault on the next page is served from a free frame. */
  lemma LateMiss(m: Memory, all: seq<Move>, r: Recorded, F: nat, k: nat, a: nat) returns (more: seq<Move>, u: Recorded)
    requires Reached(m, all, r) && Late(r.sys, F, k, a) && k < MAX_LRU + F && LateTour(F)[k] == a < F
    ensures Reached(m, all + more, u) && Late(u.sys, F, k, a + 1)
  {
    hide SysInv, Inv, Addressable, Reached, OnTour, FirstFree, Victim, LateTour, Effect;
    TourPage(r.sys, F, k, a);
    var first, v := Miss(m, all, r, 0, LateTour(F), k);
    LateFull(r.sys.mem, F, k, a);
    u := Fetch(m, all + first, v, 0, LateTour(F), k);
    LateLoad(r.sys.mem, u.sys.mem, F, k, a);
    more := first + [Serve(0)];
    assert all + more == all + first + [Serve(0)];
  }

  /** The first k stores, with the pages the first of them need. */
  lemma {:induction false} LateRun(m: Memory, k: nat) returns (all: seq<Move>, r: Recorded)
    requires Initial(m) && m.policy.Lru? && m.pageSize >= 4 && 0 < |m.owners| < |m.taken| && AddressFits(m)
    requires k < MAX_LRU + |m.owners|
    ensures Reached(m, all, r) && Late(r.sys, |m.owners|, k, Arrived(k))
  {
    hide Initial, Reached, Late, AddressFits;
    if k == 0 {
      all, r := LateStart(m);
    } else {
      var F := |m.owners|;
      all, r := LateRun(m, k - 1);
      var more;
      if Arrived(k) > Arrived(k - 1) {
        more, r := LateMiss(m, all, r, F, k - 1, Arrived(k - 1));
        all := all + more;
      }
      more, r := LateHit(m, all, r, F, k - 1, Arrived(k));
      all := all + more;
    }
  }

  lemma NoStampsNoVictim(m: Memory, F: nat, k: nat)
    requires Inv(m) && LateMemory(m, F, k, F) && k >= MAX_LRU
    ensures Victim(m) == None && FirstFree(m.owners) == |m.owners|
  {
    hide Inv, Victim, FirstFree;
    VictimLowest(m);
    LateFull(m, F, k, F);
  }

  /** Under LRU, whatever the number of frames, there is a run of the system that ends with a
      page fault whose service kills the memory process: one process that stores MAX_LRU times
      to its first page and then once to each of the others. */
  lemma LruDiesLate(m: Memory) returns (all: seq<Move>)
    requires Initial(m) && m.policy.Lru? && m.pageSize >= 4 && 0 < |m.owners| < |m.taken| && AddressFits(m)
    ensures Dies(m, all, 0)
  {
    hide Initial, Inv, SysInv, Reached, RunMoves, AddressFits, OnTour, LateTour, Addressable, Victim, FirstFree;
    var F := |m.owners|;
    var k := MAX_LRU + F - 1;
    var before, r := LateRun(m, k);
    TourPage(r.sys, F, k, F);
    var more, u := Miss(m, before, r, 0, LateTour(F), k);
    NoStampsNoVictim(r.sys.mem, F, k);
    all := before + more;
    DiesWaiting(m, all, u, 0, LateTour(F), k);
  }

  /** Exactly when page-fault service can die: when there are more swap blocks than frames, and
      the policy is LRU or there are fewer than a hundred frames. */
  lemma ServiceCanDieIff(m: Memory)
    requires Initial(m) && m.pageSize >= 4 && AddressFits(m)
    ensures (exists all, p :: Dies(m, all, p)) <==>
              |m.owners| < |m.taken| && (m.policy.Lru? || |m.owners| < 100)
  {
    hide Dies, Initial, AddressFits;
    if |m.owners| < |m.taken| && |m.owners| < 100 {
      var all := FewerFramesCanDie(m);
    } else if |m.owners| < |m.taken| && m.policy.Lru? {
      var all := LruDiesLate(m);
    } else {
      forall all, p ensures !Dies(m, all, p) {
        if |m.taken| <= |m.owners| {
          SmallSwapNeverDies(m, all, p);
        } else if Dies(m, all, p) {
          HundredFramesDieLate(m, all, p);
        }
      }
    }
  }
}
