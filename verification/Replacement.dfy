/** LRU and FIFO replacement, stated on the history of a run instead of on stamps and lists. */
module Replacement {
  import opened Words
  import opened Paging
  import opened Access
  import opened Lifecycle
  import opened History
  import opened SwapMap

  // ----------------------------------------------------------- reading a history

  /** How many accesses the history holds. */
  function Uses(log: seq<Event>): nat {
    if log == [] then 0
    else Uses(log[..|log| - 1]) + if log[|log| - 1].Used? then 1 else 0
  }

  /** 1 + position of the last access to pg since its process was created; 0 if none. */
  function LastUse(log: seq<Event>, pg: Page): (k: nat)
    ensures k <= |log|
    ensures k > 0 ==> log[k - 1] == Used(pg)
  {
    if log == [] then 0
    else match log[|log| - 1]
      case Used(p) => if p == pg then |log| else LastUse(log[..|log| - 1], pg)
      case New(pid) => if pid == pg.pid then 0 else LastUse(log[..|log| - 1], pg)
      case _ => LastUse(log[..|log| - 1], pg)
  }

  /** 1 + position of the first access to pg since it was last loaded; 0 if none. */
  function FirstUse(log: seq<Event>, pg: Page): (k: nat)
    ensures k <= |log|
    ensures k > 0 ==> log[k - 1] == Used(pg)
  {
    if log == [] then 0
    else
      var before := FirstUse(log[..|log| - 1], pg);
      match log[|log| - 1]
      case Used(p) => if p == pg && before == 0 then |log| else before
      case Loaded(p) => if p == pg then 0 else before
      case New(pid) => if pid == pg.pid then 0 else before
      case Gone(_) => before
  }

  lemma {:induction false} UsesGrow(log: seq<Event>, a: nat, b: nat)
    requires a < b <= |log| && log[b - 1].Used?
    ensures Uses(log[..a]) < Uses(log[..b])
  {
    assert log[..b][..b - 1] == log[..b - 1];
    UsesMonotone(log, a, b - 1);
  }

  lemma {:induction false} UsesMonotone(log: seq<Event>, a: nat, b: nat)
    requires a <= b <= |log|
    ensures Uses(log[..a]) <= Uses(log[..b])
  {
    if a < b {
      assert log[..b][..b - 1] == log[..b - 1];
      UsesMonotone(log, a, b - 1);
    }
  }

  // ------------------------------------------------------------------------ LRU

  /** The stamp the history prescribes for pg. */
  function StampOf(log: seq<Event>, pg: Page): nat {
    if LastUse(log, pg) == 0 then MAX_LRU else Uses(log[..LastUse(log, pg)])
  }

  ghost predicate StampsTrack(w: World) {
    && w.m.clock == Uses(w.log)
    && forall pg :: pg in w.m.ents ==> w.m.ents[pg].stamp == StampOf(w.log, pg)
  }

  /** How the history's stamp of a page changes with one more event. */
  lemma StampAfter(log: seq<Event>, e: Event, pg: Page)
    ensures Uses(log + [e]) == Uses(log) + if e.Used? then 1 else 0
    ensures StampOf(log + [e], pg)
         == if e == Used(pg) then Uses(log) + 1 else if e == New(pg.pid) then MAX_LRU else StampOf(log, pg)
  {
    var longer := log + [e];
    assert longer[..|log|] == log && longer[..|longer|] == longer;
    var k := LastUse(log, pg);
    assert longer[..k] == log[..k];
  }

  /** The pages a fault for pg takes out of memory: none if a frame is free. */
  predicate Replaced(m: Memory, q: Page)
    requires Tables(m)
  {
    FirstFree(m.owners) == |m.owners| && Victim(m) == Some(q)
  }

  /** What an event does to the clock, the stamps, residency and the list. */
  ghost predicate Effect(m: Memory, n: Memory, e: Event)
    requires Tables(m)
  {
    && n.policy == m.policy
    && match e
       case New(pid) =>
         && n.clock == m.clock && n.touched == m.touched
         && (forall pg :: pg in m.ents ==> pg in n.ents && n.ents[pg] == m.ents[pg])
         && (forall pg :: pg in n.ents && pg !in m.ents ==>
               pg.pid == pid && n.ents[pg].stamp == MAX_LRU && !n.ents[pg].present)
         && (forall pg :: pg in m.ents ==> pg.pid != pid)
       case Loaded(p) =>
         && n.clock == m.clock && n.ents.Keys == m.ents.Keys && p in m.ents && !m.ents[p].present
         && (forall pg :: pg in m.ents ==>
               n.ents[pg].stamp == m.ents[pg].stamp
               && n.ents[pg].present == (pg == p || (m.ents[pg].present && !Replaced(m, pg))))
         && n.touched == (if FirstFree(m.owners) == |m.owners| then AfterChoice(m) else m.touched)
         && (FirstFree(m.owners) == |m.owners| ==> Victim(m).Some?)
       case Used(p) =>
         && n.clock == m.clock + 1 && n.ents.Keys == m.ents.Keys && p in m.ents && m.ents[p].present
         && (forall pg :: pg in m.ents ==>
               n.ents[pg].stamp == (if pg == p then m.clock + 1 else m.ents[pg].stamp)
               && n.ents[pg].present == m.ents[pg].present)
         && n.touched == if p in m.touched then m.touched else m.touched + [p]
       case Gone(pid) =>
         && n.clock == m.clock && n.touched == Without(m.touched, (pg: Page) => pg.pid == pid)
         && (forall pg :: pg in n.ents <==> pg in m.ents && pg.pid != pid)
         && (forall pg :: pg in n.ents ==> n.ents[pg] == m.ents[pg])
  }

  lemma LoadEffect(m: Memory, pg: Page)
    requires Inv(m) && pg in m.ents && !m.ents[pg].present && ServeFault(m, pg).Ok?
    ensures Effect(m, ServeFault(m, pg).value, Loaded(pg))
  {
    hide EntryOk, Tables, OneHolder, AllHeld, SwapOwned, Queue, Stamps, Clean, MinStamp, FrameBytes, FirstFree,
         Resident, Victim, AfterChoice;
    if FirstFree(m.owners) == |m.owners| {
      VictimResident(m, Victim(m).value);
    }
  }

  lemma UseEffect(m: Memory, pg: Page, df: nat, bs: Bytes)
    requires Inv(m) && pg in m.ents && m.ents[pg].present && df + |bs| <= |m.ram|
    ensures Effect(m, Touch(m, pg), Used(pg)) && Effect(m, Touch(Poke(m, pg, df, bs), pg), Used(pg))
  {
    hide Inv, Patch;
  }

  lemma MovEffect(m: Memory, df: nat, r: Request)
    requires Inv(m) && InFrame(m, df) && (r == MovIn(df) || (r.MovOut? && r.df == df)) && Handle(m, r).Ok?
    ensures Effect(m, Handle(m, r).value, EventOf(m, r))
  {
    hide Inv, Shape, Tables, PageAt, InFrame, Patch, Le, FromLe, EntryOk, Effect, Touch, Poke;
    var pg, off := InFramePage(m, df);
    var bs := if r.MovOut? then Le(r.value) else [];
    assert df + |bs| <= |m.ram|;
    UseEffect(m, pg, df, bs);
  }

  lemma BeginEffect(m: Memory, pid: nat, k: nat)
    requires Inv(m) && pid !in m.count && Create(m, pid, k).Ok?
    ensures Effect(m, Create(m, pid, k).value, New(pid))
  {
    hide Inv, Reserve, NewEntries, Create;
    CreateCreated(m, pid, k);
    InvShape(m);
    var n := Create(m, pid, k).value;
    assert forall pg :: pg in n.ents && pg !in m.ents ==> pg == Page(pid, pg.index);
  }

  lemma EndEffect(m: Memory, pid: nat)
    requires Inv(m) && pid in m.count
    ensures Finish(m, pid).Ok? && Effect(m, Finish(m, pid).value, Gone(pid))
  {
    hide OneHolder, AllHeld, EntriesOk, SwapOwned, Queue, Stamps, Clean, Without, Contents;
    FinishKeeps(m, pid);
  }

  lemma StepEffect(m: Memory, r: Request)
    requires Inv(m) && Legal(m, r) && Handle(m, r).Ok?
    ensures Effect(m, Handle(m, r).value, EventOf(m, r))
  {
    hide Inv, Effect, InFrame, Create, ServeFault, Finish, Store, Load;
    match r
    case Begin(pid, k) => BeginEffect(m, pid, k);
    case Fault(pg) => LoadEffect(m, pg);
    case MovOut(df, v) => MovEffect(m, df, r);
    case MovIn(df) => MovEffect(m, df, r);
    case End(pid) => EndEffect(m, pid);
  }

  lemma StampsTrackStep(w: World, r: Request)
    requires StampsTrack(w) && Step(w, r).Ok?
    ensures StampsTrack(Step(w, r).value)
  {
    hide Inv, Legal, Handle, EventOf, StampOf, Uses, AfterChoice, Without, Replaced;
    StepEffect(w.m, r);
    var e, u := EventOf(w.m, r), Step(w, r).value;
    forall pg | pg in u.m.ents ensures u.m.ents[pg].stamp == StampOf(u.log, pg) {
      StampAfter(w.log, e, pg);
    }
    StampAfter(w.log, e, Page(0, 0));
  }

  lemma {:induction false} RunStamps(w: World, rs: seq<Request>)
    requires StampsTrack(w) && Run(w, rs).Ok?
    ensures StampsTrack(Run(w, rs).value)
  {
    hide StampsTrack, Step;
    if rs != [] {
      RunStamps(w, rs[..|rs| - 1]);
      StampsTrackStep(Run(w, rs[..|rs| - 1]).value, rs[|rs| - 1]);
    }
  }

  /** An access still counts for LRU when it happened before the counter reached MAX_LRU. */
  predicate Counted(log: seq<Event>, pg: Page) {
    LastUse(log, pg) > 0 && Uses(log[..LastUse(log, pg)]) < MAX_LRU
  }

  ghost predicate LeastRecentlyUsed(w: World, v: Page) {
    && v in w.m.ents && w.m.ents[v].present && Counted(w.log, v)
    && forall q :: q in w.m.ents && w.m.ents[q].present && Counted(w.log, q) && q != v ==>
         LastUse(w.log, v) < LastUse(w.log, q)
  }

  /** Under LRU the victim is the resident page, of any process, whose last access is
      the oldest in the history; it is unique; and there is none exactly when no resident
      page has an access that counts. */
  lemma LruVictim(m0: Memory, rs: seq<Request>)
    requires Initial(m0) && m0.policy.Lru? && Run(World(m0, []), rs).Ok?
    ensures var w := Run(World(m0, []), rs).value;
            && Inv(w.m)
            && (forall v :: Victim(w.m) == Some(v) <==> LeastRecentlyUsed(w, v))
            && (Victim(w.m) == None <==>
                forall q :: q in w.m.ents && w.m.ents[q].present ==> !Counted(w.log, q))
  {
    hide Inv;
    InitialInv(m0);
    var w := Run(World(m0, []), rs).value;
    RunKeeps(World(m0, []), rs);
    RunStamps(World(m0, []), rs);
    PolicyFixed(World(m0, []), rs);
    VictimOldest(w);
  }

  lemma {:induction false} PolicyFixed(w: World, rs: seq<Request>)
    requires Run(w, rs).Ok?
    ensures Run(w, rs).value.m.policy == w.m.policy
  {
    hide Inv, Legal, Handle, EventOf;
    if rs != [] {
      PolicyFixed(w, rs[..|rs| - 1]);
      StepEffect(Run(w, rs[..|rs| - 1]).value.m, rs[|rs| - 1]);
    }
  }

  /** Fewer uses means an older last access. */
  lemma OlderStamp(log: seq<Event>, p: Page, q: Page)
    requires LastUse(log, p) > 0 && LastUse(log, q) > 0 && p != q
    ensures StampOf(log, p) < StampOf(log, q) <==> LastUse(log, p) < LastUse(log, q)
    ensures StampOf(log, p) != StampOf(log, q)
  {
    var i, j := LastUse(log, p), LastUse(log, q);
    hide LastUse, Uses;
    assert i != j;
    if i < j {
      UsesGrow(log, i, j);
    } else {
      UsesGrow(log, j, i);
    }
  }

  lemma VictimOldest(w: World)
    requires Inv(w.m) && StampsTrack(w) && w.m.policy.Lru?
    ensures forall v :: Victim(w.m) == Some(v) <==> LeastRecentlyUsed(w, v)
    ensures Victim(w.m) == None <==>
            forall q :: q in w.m.ents && w.m.ents[q].present ==> !Counted(w.log, q)
  {
    hide LastUse, Uses, Inv;
    var m := w.m;
    forall q | q in m.ents ensures Counted(w.log, q) <==> m.ents[q].stamp < MAX_LRU {}
    forall p, q | p in m.ents && q in m.ents && p != q && Counted(w.log, p) && Counted(w.log, q)
      ensures m.ents[p].stamp != m.ents[q].stamp
      ensures m.ents[p].stamp < m.ents[q].stamp <==> LastUse(w.log, p) < LastUse(w.log, q)
    {
      OlderStamp(w.log, p, q);
    }
    VictimLowest(m);
  }

  lemma VictimLowest(m: Memory)
    requires Inv(m) && m.policy.Lru?
    ensures Victim(m) == None <==> forall q :: q in m.ents && m.ents[q].present ==> m.ents[q].stamp >= MAX_LRU
    ensures Victim(m).Some? ==> var v := Victim(m).value;
            v in m.ents && m.ents[v].present && m.ents[v].stamp < MAX_LRU
            && forall q :: q in m.ents && m.ents[q].present ==> m.ents[v].stamp <= m.ents[q].stamp
  {
    hide Frames, SwapOwned, Queue, Stamps, Clean, Tables, Resident;
    if Victim(m).Some? {
      VictimResident(m, Victim(m).value);
    } else {
      AllResidentAreEntries(m);
      forall q | q in m.ents && m.ents[q].present ensures m.ents[q].stamp >= MAX_LRU {
        ResidentListed(m, q);
      }
    }
  }

  /** A single frame with a page in it that has just been used: no frame is free, and that
      page is the victim. */
  lemma OnlyVictim(m: Memory, pg: Page)
    requires Inv(m) && |m.owners| == 1 && pg in m.ents && m.ents[pg].present && EntryOk(m, m.ents[pg], pg.pid)
    requires if m.policy.Fifo? then pg in m.touched else m.ents[pg].stamp < MAX_LRU
    ensures FirstFree(m.owners) == |m.owners| && Victim(m) == Some(pg)
  {
    hide Shape, SwapOwned, Stamps, Clean;
    assert m.owners[m.ents[pg].frame] != -1;
    if m.policy.Lru? {
      VictimLowest(m);
      OnlyResident(m, pg, Victim(m).value);
    } else {
      assert m.touched[0] in m.ents && m.ents[m.touched[0]].present;
      OnlyResident(m, pg, m.touched[0]);
    }
  }

  lemma OnlyResident(m: Memory, pg: Page, q: Page)
    requires Inv(m) && |m.owners| == 1 && pg in m.ents && m.ents[pg].present && q in m.ents && m.ents[q].present
    ensures q == pg
  {
    assert EntryOk(m, m.ents[pg], pg.pid) && EntryOk(m, m.ents[q], q.pid);
    assert Holds(m, 0, pg) && Holds(m, 0, q);
  }

  lemma ResidentListed(m: Memory, q: Page)
    requires Tables(m) && q in m.ents && m.ents[q].present
    ensures q in Resident(m, m.order)
  {
    ResidentMember(m, m.order, q);
  }

  /** Below MAX_LRU accesses in all, every access counts. */
  lemma EveryAccessCounts(log: seq<Event>, pg: Page)
    requires Uses(log) < MAX_LRU
    ensures Counted(log, pg) <==> LastUse(log, pg) > 0
  {
    UsesMonotone(log, LastUse(log, pg), |log|);
    assert log[..|log|] == log;
  }

  // ----------------------------------------------------------------------- FIFO

  /** The list is exactly the resident pages used since they were loaded, in the order
      of that first use. */
  ghost predicate QueueTracks(w: World) {
    && (forall pg :: pg in w.m.touched <==> pg in w.m.ents && w.m.ents[pg].present && FirstUse(w.log, pg) > 0)
    && InOrder(w.log, w.m.touched)
  }

  ghost predicate InOrder(log: seq<Event>, list: seq<Page>) {
    forall i, j :: 0 <= i < j < |list| ==> FirstUse(log, list[i]) < FirstUse(log, list[j])
  }

  lemma FirstUseAfter(log: seq<Event>, e: Event, pg: Page)
    ensures FirstUse(log + [e], pg)
         == if e == Used(pg) && FirstUse(log, pg) == 0 then |log| + 1
            else if e == Loaded(pg) || e == New(pg.pid) then 0 else FirstUse(log, pg)
  {
    assert (log + [e])[..|log|] == log;
  }

  lemma {:induction false} OrderWithout(log: seq<Event>, list: seq<Page>, gone: Page -> bool)
    requires InOrder(log, list)
    ensures InOrder(log, Without(list, gone))
  {
    if list != [] {
      var rest := Without(list[1..], gone);
      OrderWithout(log, list[1..], gone);
      WithoutExact(list[1..], gone);
      assert Without(list, gone) == if gone(list[0]) then rest else [list[0]] + rest;
      hide Without, FirstUse;
      forall k | 0 <= k < |rest| ensures FirstUse(log, list[0]) < FirstUse(log, rest[k]) {
        assert rest[k] in rest;
        assert rest[k] in list[1..];
      }
    }
  }

  lemma SameOrder(log: seq<Event>, longer: seq<Event>, list: seq<Page>)
    requires InOrder(log, list)
    requires forall pg :: pg in list ==> FirstUse(longer, pg) == FirstUse(log, pg)
    ensures InOrder(longer, list)
  {
    hide FirstUse;
    assert forall k :: 0 <= k < |list| ==> list[k] in list;
  }

  lemma OrderAppend(log: seq<Event>, list: seq<Page>, p: Page)
    requires InOrder(log, list) && forall q :: q in list ==> FirstUse(log, q) < FirstUse(log, p)
    ensures InOrder(log, list + [p])
  {
    hide FirstUse;
    assert forall k :: 0 <= k < |list| ==> list[k] in list;
  }

  lemma QueueTracksLoad(w: World, n: Memory, p: Page)
    requires Inv(w.m) && QueueTracks(w) && w.m.policy.Fifo? && Effect(w.m, n, Loaded(p))
    ensures QueueTracks(World(n, w.log + [Loaded(p)]))
  {
    hide Frames, SwapOwned, Stamps, Clean, FirstUse, Tables, FirstFree, Shape, InOrder;
    var m, u := w.m, World(n, w.log + [Loaded(p)]);
    forall pg ensures FirstUse(u.log, pg) == if pg == p then 0 else FirstUse(w.log, pg) {
      FirstUseAfter(w.log, Loaded(p), pg);
    }
    SameOrder(w.log, u.log, m.touched);
    if FirstFree(m.owners) == |m.owners| {
      HeadAndTail(u.log, m.touched);
    }
  }

  lemma HeadAndTail(log: seq<Event>, t: seq<Page>)
    requires t != [] && InOrder(log, t) && Distinct(t)
    ensures InOrder(log, t[1..]) && forall pg :: pg in t[1..] <==> pg in t && pg != t[0]
  {
    hide FirstUse;
    assert t == [t[0]] + t[1..];
  }

  lemma UseKeepsOrder(w: World, n: Memory, p: Page)
    requires Inv(w.m) && QueueTracks(w) && w.m.policy.Fifo? && Effect(w.m, n, Used(p))
    ensures InOrder(w.log + [Used(p)], n.touched)
  {
    hide Inv, FirstUse;
    var m, longer := w.m, w.log + [Used(p)];
    forall pg
      ensures FirstUse(longer, pg) == if pg == p && FirstUse(w.log, pg) == 0 then |w.log| + 1 else FirstUse(w.log, pg)
      ensures FirstUse(w.log, pg) <= |w.log|
    {
      FirstUseAfter(w.log, Used(p), pg);
    }
    SameOrder(w.log, longer, m.touched);
    hide InOrder;
    if p !in m.touched {
      OrderAppend(longer, m.touched, p);
    }
  }

  lemma QueueTracksUse(w: World, n: Memory, p: Page)
    requires Inv(w.m) && QueueTracks(w) && w.m.policy.Fifo? && Effect(w.m, n, Used(p))
    ensures QueueTracks(World(n, w.log + [Used(p)]))
  {
    hide Inv, FirstUse, InOrder;
    UseKeepsOrder(w, n, p);
    forall pg ensures pg in n.touched <==> pg in n.ents && n.ents[pg].present && FirstUse(w.log + [Used(p)], pg) > 0 {
      FirstUseAfter(w.log, Used(p), pg);
    }
  }

  lemma QueueTracksProcess(w: World, n: Memory, e: Event)
    requires Inv(w.m) && QueueTracks(w) && w.m.policy.Fifo? && (e.New? || e.Gone?) && Effect(w.m, n, e)
    ensures QueueTracks(World(n, w.log + [e]))
  {
    hide Frames, SwapOwned, Stamps, Clean, FirstUse, Tables, Without, Shape;
    var m, u := w.m, World(n, w.log + [e]);
    forall pg ensures FirstUse(u.log, pg) == if e == New(pg.pid) then 0 else FirstUse(w.log, pg) {
      FirstUseAfter(w.log, e, pg);
    }
    if e.New? {
      SameOrder(w.log, u.log, m.touched);
    } else {
      var gone := (pg: Page) => pg.pid == e.pid;
      WithoutExact(m.touched, gone);
      OrderWithout(w.log, m.touched, gone);
      SameOrder(w.log, u.log, n.touched);
    }
  }

  lemma QueueTracksStep(w: World, r: Request)
    requires QueueTracks(w) && w.m.policy.Fifo? && Step(w, r).Ok?
    ensures QueueTracks(Step(w, r).value)
  {
    hide Inv, EventOf, QueueTracks, Effect, Create, Store, Load, Finish, InFrame;
    StepEffect(w.m, r);
    var n, e := Handle(w.m, r).value, EventOf(w.m, r);
    match e
    case New(_) => QueueTracksProcess(w, n, e);
    case Gone(_) => QueueTracksProcess(w, n, e);
    case Used(p) => QueueTracksUse(w, n, p);
    case Loaded(p) =>
      QueueTracksLoad(w, n, p);
  }

  lemma {:induction false} RunQueue(w: World, rs: seq<Request>)
    requires QueueTracks(w) && w.m.policy.Fifo? && Run(w, rs).Ok?
    ensures QueueTracks(Run(w, rs).value)
  {
    hide QueueTracks, Step;
    if rs != [] {
      RunQueue(w, rs[..|rs| - 1]);
      PolicyFixed(w, rs[..|rs| - 1]);
      QueueTracksStep(Run(w, rs[..|rs| - 1]).value, rs[|rs| - 1]);
    }
  }

  ghost predicate UsedSinceLoaded(w: World, pg: Page) {
    pg in w.m.ents && w.m.ents[pg].present && FirstUse(w.log, pg) > 0
  }

  ghost predicate FirstIn(w: World, v: Page) {
    UsedSinceLoaded(w, v)
    && forall q :: UsedSinceLoaded(w, q) && q != v ==> FirstUse(w.log, v) < FirstUse(w.log, q)
  }

  /** Under FIFO the list always holds, without repetition and in order of first use,
      exactly the resident pages used since they were loaded; the victim is the first of
      them, and there is none exactly when no resident page has been used. */
  lemma FifoVictim(m0: Memory, rs: seq<Request>)
    requires Initial(m0) && m0.policy.Fifo? && Run(World(m0, []), rs).Ok?
    ensures var w := Run(World(m0, []), rs).value;
            && Inv(w.m)
            && (forall pg :: pg in w.m.touched <==> UsedSinceLoaded(w, pg)) && Distinct(w.m.touched)
            && InOrder(w.log, w.m.touched)
            && (forall v :: Victim(w.m) == Some(v) <==> FirstIn(w, v))
            && (Victim(w.m) == None <==> forall q :: !UsedSinceLoaded(w, q))
  {
    InitialInv(m0);
    var w := Run(World(m0, []), rs).value;
    RunKeeps(World(m0, []), rs);
    RunQueue(World(m0, []), rs);
    PolicyFixed(World(m0, []), rs);
    HeadIsFirst(w);
  }

  lemma HeadIsFirst(w: World)
    requires Inv(w.m) && QueueTracks(w) && w.m.policy.Fifo?
    ensures forall v :: Victim(w.m) == Some(v) <==> FirstIn(w, v)
    ensures Victim(w.m) == None <==> forall q :: !UsedSinceLoaded(w, q)
  {
    hide Frames, SwapOwned, Stamps, Clean, FirstUse, Tables, Shape;
    var t := w.m.touched;
    if t != [] {
      assert t[0] in t;
      forall q | q in t && q != t[0] ensures FirstUse(w.log, t[0]) < FirstUse(w.log, q) {
        var k :| 0 <= k < |t| && t[k] == q;
      }
    }
  }
}
