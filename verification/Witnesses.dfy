/** Runs from boot that reach the states in which the code does not do what one expects: a
    page-crossing store that is wrong, an F_WRITE that overwrites a process's page, an F_READ
    that is lost. */
module Witnesses {
  import opened Words
  import opened Paging
  import opened Access
  import opened SwapMap
  import opened Lifecycle
  import opened FlatView
  import opened Crossing
  import opened History
  import opened Replacement
  import opened Files
  import opened LostReads
  import opened SoloRuns

  lemma RunOn(w: World, rs: seq<Request>, r: Request)
    requires Run(w, rs).Ok? && Inv(Run(w, rs).value.m) && Legal(Run(w, rs).value.m, r)
    requires Handle(Run(w, rs).value.m, r).Ok?
    ensures Run(w, rs + [r]).Ok? && Run(w, rs + [r]).value.m == Handle(Run(w, rs).value.m, r).value
  {
    hide Inv, Legal, Handle, EventOf;
    assert (rs + [r])[..|rs|] == rs;
  }

  lemma RunNone(m: Memory)
    ensures Run(World(m, []), []) == Ok(World(m, []))
  {
  }

  // ------------------------------------------------------ one process, one page in

  /** Process 0 of k pages, blocks 0 to k - 1, with exactly page i loaded, clean and never
      used, in frame 0. */
  ghost predicate Loaded0(m0: Memory, m: Memory, k: nat, i: nat) {
    && Inv(m) && m.pageSize == m0.pageSize && m.base == m0.base && |m.owners| == |m0.owners| && m.disk == m0.disk
    && |m.taken| == |m0.taken| && m.clock == 0
    && (forall pg :: pg in m.ents <==> pg.pid == 0 && pg.index < k)
    && (forall pg :: pg in m.ents ==>
          m.ents[pg].block == pg.index && !m.ents[pg].dirty && (m.ents[pg].present <==> pg.index == i)
          && (pg.index == i ==> m.ents[pg].frame == 0))
  }

  lemma Begun(m0: Memory, k: nat) returns (m: Memory)
    requires Initial(m0) && k <= |m0.taken|
    ensures Run(World(m0, []), [Begin(0, k)]).Ok? && Run(World(m0, []), [Begin(0, k)]).value.m == m
    ensures Inv(m) && m == m0.(order := [0], count := map[0 := k], ents := m.ents, taken := m.taken)
    ensures |m.taken| == |m0.taken| && forall pg :: pg in m.ents <==> pg.pid == 0 && pg.index < k
    ensures forall pg :: pg in m.ents ==> m.ents[pg] == Entry(-1, false, false, pg.index, MAX_LRU)
  {
    hide FreeIds, Create, Reserve, Contents;
    InitialInv(m0);
    AllFree(m0.taken, 0);
    ReserveExact(m0.taken, k);
    CreateKeeps(m0, 0, k);
    CreateCreated(m0, 0, k);
    ReserveList(m0.taken, k);
    m := Create(m0, 0, k).value;
    hide Inv;
    RunNone(m0);
    assert [] + [Begin(0, k)] == [Begin(0, k)];
    RunOn(World(m0, []), [], Begin(0, k));
    forall pg | pg in m.ents ensures m.ents[pg] == Entry(-1, false, false, pg.index, MAX_LRU) {
      assert pg == Page(0, pg.index);
    }
  }

  lemma BroughtIn(m0: Memory, k: nat, i: nat) returns (m: Memory)
    requires Initial(m0) && i < k <= |m0.taken| && |m0.owners| > 0
    ensures var rs := [Begin(0, k), Fault(Page(0, i))];
            Run(World(m0, []), rs).Ok? && Run(World(m0, []), rs).value.m == m && Loaded0(m0, m, k, i)
  {
    hide Inv, Shape, Tables, Patch, Install, Initial, ServeFault, Contents;
    var b := Begun(m0, k);
    var pg := Page(0, i);
    InvFacts(b, pg);
    EmptyFrames(m0);
    FirstFault(b, pg);
    ServeFaultKeeps(b, pg);
    m := Install(b, pg, 0);
    Brought(m0, b, k, i);
    assert [Begin(0, k)] + [Fault(pg)] == [Begin(0, k), Fault(pg)];
    RunOn(World(m0, []), [Begin(0, k)], Fault(pg));
  }

  lemma EmptyFrames(m0: Memory)
    requires Initial(m0)
    ensures m0.clock == 0 && forall f :: 0 <= f < |m0.owners| ==> m0.owners[f] == -1
  {
  }

  lemma FirstFault(b: Memory, pg: Page)
    requires Inv(b) && Shape(b) && pg in b.ents && |b.owners| > 0 && b.owners[0] == -1 && b.ents[pg].block < |b.taken|
    ensures ServeFault(b, pg) == Ok(Install(b, pg, 0))
  {
    hide Inv, Shape, Install, Victim;
    assert FirstFree(b.owners) == 0;
  }

  lemma Brought(m0: Memory, b: Memory, k: nat, i: nat)
    requires Shape(b) && b == m0.(order := b.order, count := b.count, ents := b.ents, taken := b.taken)
    requires |b.taken| == |m0.taken| && i < k <= |b.taken| && |b.owners| > 0 && b.clock == 0
    requires forall pg :: pg in b.ents <==> pg.pid == 0 && pg.index < k
    requires forall pg :: pg in b.ents ==> b.ents[pg] == Entry(-1, false, false, pg.index, MAX_LRU)
    requires Inv(Install(b, Page(0, i), 0))
    ensures Loaded0(m0, Install(b, Page(0, i), 0), k, i)
  {
    hide Inv, Shape, Patch;
    forall pg | pg in b.ents ensures pg == Page(0, pg.index) {}
  }

  // --------------------------------------------------------------- crossing stores

  /** A process with one page, loaded: a store at the last byte of the page is wrong. */
  lemma CrossingReached(m0: Memory) returns (v: Word)
    requires Initial(m0) && m0.pageSize >= 4 && |m0.owners| > 0 && |m0.taken| > 0
    ensures var r := Run(World(m0, []), [Begin(0, 1), Fault(Page(0, 0))]);
            && r.Ok? && Inv(r.value.m)
            && var (m, pg) := (r.value.m, Page(0, 0));
               pg in m.ents && m.ents[pg].present && m.ents[pg].frame >= 0 && !StoreRight(m, pg, m.pageSize - 1, v)
  {
    hide Inv, Initial;
    var m := BroughtIn(m0, 1, 0);
    assert Page(0, 1) !in m.ents;
    v := CrossingWrong(m, Page(0, 0), m.pageSize - 1);
  }

  // ------------------------------------------------------------------ file writes

  /** A process with two pages stores to the second and writes it to a file whose chain
      starts at block tamanio_fat - 1, which is swap block 0: its first page changes. */
  lemma OverwriteReached(m0: Memory, fat: seq<Word>) returns (v: Word)
    requires Initial(m0) && m0.pageSize >= 4 && |m0.owners| > 0 && |m0.taken| >= 2
    ensures var r := Run(World(m0, []), [Begin(0, 2), Fault(Page(0, 1)), MovOut(0, v)]);
            && r.Ok? && Inv(r.value.m)
            && var (m, first) := (r.value.m, Page(0, 0));
               && Shape(m) && first in m.ents && EntryOk(m, m.ents[first], 0)
               && var w := FileWrite(m, fat, m.base, 0, 0);
                  && w.Ok? && Shape(w.value) && first in w.value.ents && EntryOk(w.value, w.value.ents[first], 0)
                  && PageBytes(w.value, first) != PageBytes(m, first)
  {
    hide Inv, Initial, Contents, PageBytes, Shape, Tables, EntryOk;
    var b := BroughtIn(m0, 2, 1);
    var first, second := Page(0, 0), Page(0, 1);
    InvFacts(b, first);
    InvFacts(b, second);
    var was := PageBytes(b, first);
    var y := OtherByte(was[0]);
    v := FromLe([y, y, y, y]);
    FromLeRoundTrip([y, y, y, y]);
    StoreInPage(b, second, 0, v);
    ZeroAddress(b.pageSize);
    var m := Store(b, 0, v).value;
    StoreIsTouch(b, second, v);
    assert [Begin(0, 2), Fault(second)] + [MovOut(0, v)] == [Begin(0, 2), Fault(second), MovOut(0, v)];
    AtZeroInFrame(b, second);
    RunOn(World(m0, []), [Begin(0, 2), Fault(second)], MovOut(0, v));
    InvFacts(m, first);
    InvFacts(m, second);
    PatchedByte(PageBytes(b, second), y);
    FileWriteHits(m, fat, second, first);
  }

  lemma ZeroAddress(P: nat)
    ensures At(P, 0, 0) == 0
  {
  }

  lemma AtZeroInFrame(m: Memory, pg: Page)
    requires Inv(m) && pg in m.ents && m.ents[pg].present && m.ents[pg].frame == 0 && m.pageSize >= 4
    requires Shape(m) && Tables(m)
    ensures InFrame(m, 0)
  {
    hide Frames, SwapOwned, Queue, Stamps, Clean, FindFrame;
    Cpu.FrameNonNegative(m, pg);
    FrameInside(|m.owners|, m.pageSize, 0);
    SplitAddress(m.pageSize, 0, 0);
    PageAtHolder(m, pg);
  }

  /** A store at address 0 is a use of the page in frame 0, made dirty. */
  lemma StoreIsTouch(m: Memory, pg: Page, v: Word)
    requires Inv(m) && pg in m.ents && m.ents[pg].present && m.ents[pg].frame == 0 && m.pageSize >= 4
    requires Shape(m) && Tables(m) && Store(m, 0, v).Ok?
    ensures var n := Store(m, 0, v).value;
            && n.ents == m.ents[pg := n.ents[pg]] && n.ents[pg].present && n.ents[pg].frame == 0
            && n.base == m.base && n.disk == m.disk && n.taken == m.taken && n.pageSize == m.pageSize
  {
    hide Frames, SwapOwned, Queue, Stamps, Clean, FindFrame, Patch, Le;
    Cpu.FrameNonNegative(m, pg);
    SplitAddress(m.pageSize, 0, 0);
    PageAtHolder(m, pg);
  }

  lemma PatchedByte(page: Bytes, y: Byte)
    requires |page| >= 4
    ensures Patch(page, 0, [y, y, y, y])[0] == y
  {
  }

  lemma FileWriteHits(m: Memory, fat: seq<Word>, second: Page, first: Page)
    requires Inv(m) && second in m.ents && m.ents[second].present && m.ents[second].frame == 0
    requires EntryOk(m, m.ents[second], second.pid) && Shape(m) && |m.taken| > 0
    requires first in m.ents && !m.ents[first].present && m.ents[first].block == 0 && EntryOk(m, m.ents[first], first.pid)
    requires first != second
    ensures var w := FileWrite(m, fat, m.base, 0, 0);
            && w.Ok? && Shape(w.value) && first in w.value.ents && EntryOk(w.value, w.value.ents[first], first.pid)
            && PageBytes(w.value, first) == PageBytes(m, second)
  {
    hide Tables, OneHolder, AllHeld, SwapOwned, Queue, Stamps, Clean, FrameBytes, ReadPage;
    ZeroAddress(m.pageSize);
    ReadPageExact(m, second);
  }

  // ------------------------------------------------------------------- lost reads

  /** F_READ brings bs into v at address 0, a fault for q follows: bs was there, is gone, and
      memory is what it would be without the F_READ. */
  ghost predicate ReadIsLost(m: Memory, v: Page, bs: Bytes, q: Page)
    requires Inv(m) && Shape(m) && |bs| == m.pageSize
  {
    var w := WritePage(m, 0, bs);
    && w.Ok? && Placed(w.value) && Service(w.value, q).Ok? && Service(w.value, q) == ServeFault(m, q)
    && v in w.value.ents && PageBytes(w.value, v) == bs
    && var n := Service(w.value, q).value; Inv(n) && v in n.ents && Contents(n)[v] != bs
  }

  /** Page (0,0) is in the only frame, clean and just used; page (0,1) is out. */
  ghost predicate UsedOnce(m0: Memory, m: Memory) {
    var pg, q := Page(0, 0), Page(0, 1);
    && Inv(m) && m.pageSize == m0.pageSize && m.base == m0.base && m.disk == m0.disk && |m.owners| == 1
    && pg in m.ents && q in m.ents && m.ents[pg].present && m.ents[pg].frame == 0 && !m.ents[pg].dirty
    && m.ents[pg].block == 0 && !m.ents[q].present && pg in m.touched && m.ents[pg].stamp < MAX_LRU
  }

  lemma UseOnce(m0: Memory) returns (m: Memory)
    requires Initial(m0) && m0.pageSize >= 4 && |m0.owners| == 1 && |m0.taken| >= 2
    ensures Run(World(m0, []), [Begin(0, 2), Fault(Page(0, 0)), MovIn(0)]).Ok?
    ensures Run(World(m0, []), [Begin(0, 2), Fault(Page(0, 0)), MovIn(0)]).value.m == m && UsedOnce(m0, m)
  {
    hide Inv, Initial, Contents, Shape, Tables, EntryOk, InFrame, Touch, Load, Run, Loaded0;
    var b := BroughtIn(m0, 2, 0);
    var pg, q := Page(0, 0), Page(0, 1);
    Loaded0Facts(m0, b);
    InvFacts(b, pg);
    LoadInPage(b, pg, 0);
    ZeroAddress(b.pageSize);
    LoadIsTouch(b, pg);
    AtZeroInFrame(b, pg);
    assert [Begin(0, 2), Fault(pg)] + [MovIn(0)] == [Begin(0, 2), Fault(pg), MovIn(0)];
    RunOn(World(m0, []), [Begin(0, 2), Fault(pg)], MovIn(0));
    m := Touch(b, pg);
    TouchedFacts(b, pg, q);
  }

  lemma Loaded0Facts(m0: Memory, b: Memory)
    requires Loaded0(m0, b, 2, 0) && Initial(m0)
    ensures var pg, q := Page(0, 0), Page(0, 1);
            && Inv(b) && b.pageSize == m0.pageSize && b.base == m0.base && b.disk == m0.disk && |b.owners| == |m0.owners|
            && pg in b.ents && q in b.ents && b.ents[pg].present && b.ents[pg].frame == 0 && !b.ents[pg].dirty
            && b.ents[pg].block == 0 && !b.ents[q].present && b.clock == 0
  {
    hide Inv;
  }

  /** On one frame, under either policy: a process loads its first page and reads a word of
      it; F_READ brings bs into it; its second page faults, and the policy takes the first.
      What F_READ brought is gone, and nothing shows it ever came. */
  lemma LostReadReached(m0: Memory, bs: Bytes) returns (m: Memory)
    requires Initial(m0) && m0.pageSize >= 4 && |m0.owners| == 1 && |m0.taken| >= 2
    requires |bs| == m0.pageSize && m0.base < |m0.disk| && bs != m0.disk[m0.base]
    ensures Run(World(m0, []), [Begin(0, 2), Fault(Page(0, 0)), MovIn(0)]).Ok?
    ensures Run(World(m0, []), [Begin(0, 2), Fault(Page(0, 0)), MovIn(0)]).value.m == m
    ensures Inv(m) && Shape(m) && |bs| == m.pageSize && ReadIsLost(m, Page(0, 0), bs, Page(0, 1))
  {
    hide Inv, Initial, Contents, Shape, EntryOk, Victim, FirstFree, WritePage, Service, ServeFault, PageBytes, Run;
    m := UseOnce(m0);
    var pg, q := Page(0, 0), Page(0, 1);
    InvFacts(m, pg);
    OnlyVictim(m, pg);
    BlockInside(m, pg);
    ZeroAddress(m.pageSize);
    ReadForgotten(m, pg, bs, q);
    ReadLostIff(m, pg, bs, q);
    WrittenEnts(m, bs);
  }

  lemma WrittenEnts(m: Memory, bs: Bytes)
    requires Shape(m) && |bs| == m.pageSize && WritePage(m, 0, bs).Ok?
    ensures WritePage(m, 0, bs).value.ents == m.ents
  {
  }

  lemma LoadIsTouch(m: Memory, pg: Page)
    requires Inv(m) && pg in m.ents && m.ents[pg].present && m.ents[pg].frame == 0 && m.pageSize >= 4
    requires Shape(m) && Tables(m) && Load(m, 0).Ok?
    ensures Load(m, 0).value.0 == Touch(m, pg)
  {
    hide Frames, SwapOwned, Queue, Stamps, Clean, FindFrame, FromLe;
    Cpu.FrameNonNegative(m, pg);
    SplitAddress(m.pageSize, 0, 0);
    PageAtHolder(m, pg);
  }

  lemma TouchedFacts(b: Memory, pg: Page, q: Page)
    requires pg in b.ents && q in b.ents && q != pg
    ensures var m := Touch(b, pg);
            && m.ents.Keys == b.ents.Keys && m.ents[q] == b.ents[q] && m.ents[pg] == b.ents[pg].(stamp := b.clock + 1)
            && pg in m.touched && m.owners == b.owners && m.base == b.base && m.disk == b.disk && m.pageSize == b.pageSize
            && m.clock == b.clock + 1
  {
  }

  lemma BlockInside(m: Memory, pg: Page)
    requires pg in m.ents && EntryOk(m, m.ents[pg], pg.pid)
    ensures m.ents[pg].block < |m.taken|
  {
  }
}
