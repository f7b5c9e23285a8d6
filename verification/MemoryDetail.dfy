/** What page-fault service, accesses, creation and teardown do to every entry, frame, byte of
    memory and block of swap. */
module MemoryDetail {
  import opened Words
  import opened Paging
  import opened Access
  import opened Replacement

  /** The lowest free frame, if any. */
  ghost predicate LowestFree(m: Memory, f: nat) {
    f < |m.owners| && m.owners[f] == -1 && forall g :: 0 <= g < f ==> m.owners[g] != -1
  }

  ghost predicate NoneFree(m: Memory) {
    forall f :: 0 <= f < |m.owners| ==> m.owners[f] != -1
  }

  /** Page pg has come into frame f, from its swap block and unmodified; no other frame has
      changed. */
  ghost predicate CameIn(m: Memory, n: Memory, pg: Page, f: nat)
    requires Shape(m) && pg in m.ents && m.ents[pg].block < |m.taken|
  {
    && pg in n.ents && n.ents[pg] == Entry(f, true, false, m.ents[pg].block, m.ents[pg].stamp)
    && |n.owners| == |m.owners| && f < |m.owners| && n.owners[f] == pg.pid
    && (forall g :: 0 <= g < |m.owners| && g != f ==> n.owners[g] == m.owners[g])
    && |n.ram| == |m.ram|
    && forall i :: 0 <= i < |m.ram| ==>
         n.ram[i] == if i / m.pageSize == f then m.disk[m.base + m.ents[pg].block][i % m.pageSize] else m.ram[i]
  }

  /** Page v has gone out of frame f: its bytes are in its swap block if it was modified, and no
      other block has changed. */
  ghost predicate WentOut(m: Memory, n: Memory, v: Page, f: nat)
    requires Shape(m) && v in m.ents && m.ents[v].block < |m.taken|
  {
    && v in n.ents && m.ents[v].frame == f && m.ents[v].present
    && n.ents[v] == Entry(-1, false, false, m.ents[v].block, m.ents[v].stamp)
    && |n.disk| == |m.disk| && f < |m.owners|
    && (forall b :: 0 <= b < |m.disk| && (b != m.base + m.ents[v].block || !m.ents[v].dirty) ==> n.disk[b] == m.disk[b])
    && (m.ents[v].dirty ==>
          var b := n.disk[m.base + m.ents[v].block];
          |b| == m.pageSize
          && forall i :: 0 <= i < |m.ram| && i / m.pageSize == f ==> b[i % m.pageSize] == m.ram[i])
  }

  /** Only the entries of these pages have changed, and none of the tables. */
  ghost predicate RestStays(m: Memory, n: Memory, changed: set<Page>) {
    && n.ents.Keys == m.ents.Keys && (forall q :: q in m.ents && q !in changed ==> n.ents[q] == m.ents[q])
    && n.count == m.count && n.order == m.order && n.taken == m.taken && n.clock == m.clock
    && n.pageSize == m.pageSize && n.base == m.base && n.policy == m.policy
  }

  /** Under FIFO the head of the list; under LRU the resident page with the least stamp, when
      that is below 999999. */
  ghost predicate ToReplace(m: Memory, v: Page)
    requires v in m.ents
  {
    match m.policy
    case Fifo => m.touched != [] && m.touched[0] == v
    case Lru =>
      m.ents[v].present && m.ents[v].stamp < 999_999
      && forall q :: q in m.ents && m.ents[q].present && q != v ==> m.ents[v].stamp < m.ents[q].stamp
  }

  ghost predicate NothingToReplace(m: Memory) {
    match m.policy
    case Fifo => m.touched == []
    case Lru => forall q :: q in m.ents && m.ents[q].present ==> m.ents[q].stamp >= 999_999
  }

  lemma VictimIs(m: Memory)
    requires Inv(m)
    ensures Victim(m).Some? ==> Victim(m).value in m.ents && ToReplace(m, Victim(m).value)
    ensures Victim(m) == None <==> NothingToReplace(m)
  {
    if m.policy.Lru? {
      VictimLowest(m);
      if Victim(m).Some? {
        LeastAlone(m, Victim(m).value);
      }
    } else if Victim(m).Some? {
      FirstListed(m);
    }
  }

  lemma FirstListed(m: Memory)
    requires Inv(m) && m.touched != []
    ensures m.touched[0] in m.ents
  {
  }

  lemma LeastAlone(m: Memory, v: Page)
    requires Inv(m) && v in m.ents && m.ents[v].present && m.ents[v].stamp < MAX_LRU
    requires forall q :: q in m.ents && m.ents[q].present ==> m.ents[v].stamp <= m.ents[q].stamp
    ensures forall q :: q in m.ents && m.ents[q].present && q != v ==> m.ents[v].stamp < m.ents[q].stamp
  {
    forall q | q in m.ents && m.ents[q].present && q != v ensures m.ents[v].stamp < m.ents[q].stamp {
      assert Stamped(m, m.ents[v].stamp, v) && (m.ents[q].stamp == m.ents[v].stamp ==> Stamped(m, m.ents[v].stamp, q));
    }
  }

  /** The service of an absent page: into the lowest free frame, with swap untouched; or, when
      none is free, into the frame of the page to replace, which goes out and, under FIFO, off
      the list. */
  ghost predicate ServedAs(m: Memory, n: Memory, pg: Page)
    requires Inv(m) && pg in m.ents && m.ents[pg].block < |m.taken|
  {
    || (exists f :: LowestFree(m, f) && CameIn(m, n, pg, f) && RestStays(m, n, {pg}) && n.disk == m.disk && n.touched == m.touched)
    || (NoneFree(m)
        && exists v, f :: Displaced(m, n, pg, v, f))
  }

  ghost predicate Displaced(m: Memory, n: Memory, pg: Page, v: Page, f: nat)
    requires Inv(m) && pg in m.ents && m.ents[pg].block < |m.taken|
  {
    && v in m.ents && v != pg && m.ents[v].block < |m.taken| && ToReplace(m, v)
    && WentOut(m, n, v, f) && CameIn(m, n, pg, f) && RestStays(m, n, {pg, v})
    && n.touched == (if m.policy.Fifo? && m.touched != [] then m.touched[1..] else m.touched)
  }

  lemma InstallExact(m: Memory, pg: Page, f: nat)
    requires Shape(m) && pg in m.ents && f < |m.owners| && m.ents[pg].block < |m.taken|
    ensures CameIn(m, Install(m, pg, f), pg, f) && RestStays(m, Install(m, pg, f), {pg})
    ensures Install(m, pg, f).disk == m.disk && Install(m, pg, f).touched == m.touched
  {
    var P, n := m.pageSize, Install(m, pg, f);
    FrameInside(|m.owners|, P, f);
    forall i | 0 <= i < |m.ram|
      ensures n.ram[i] == if i / P == f then m.disk[m.base + m.ents[pg].block][i % P] else m.ram[i]
    {
      JoinAddress(P, i);
      ByteOfFrame(P, i, f);
    }
  }

  lemma EvictExact(m: Memory, v: Page)
    requires Shape(m) && v in m.ents && EntryOk(m, m.ents[v], v.pid) && m.ents[v].present
    ensures m.ents[v].frame >= 0 && m.ents[v].block < |m.taken| && WentOut(m, Evict(m, v), v, m.ents[v].frame)
    ensures RestStays(m, Evict(m, v), {v}) && Evict(m, v).ram == m.ram
    ensures Evict(m, v).owners == m.owners[m.ents[v].frame := -1]
  {
    var P, f := m.pageSize, m.ents[v].frame;
    FrameInside(|m.owners|, P, f);
    forall i | 0 <= i < |m.ram| && i / P == f ensures FrameBytes(m, f)[i % P] == m.ram[i] {
      JoinAddress(P, i);
      ByteOfFrame(P, i, f);
    }
  }

  lemma Through(m: Memory, e: Memory, n: Memory, pg: Page, v: Page, f: nat)
    requires Shape(m) && Shape(e) && pg in m.ents && v in m.ents && v != pg
    requires m.ents[pg].block < |m.taken| && m.ents[v].block < |m.taken| && m.ents[pg].block != m.ents[v].block
    requires WentOut(m, e, v, f) && RestStays(m, e, {v}) && e.ram == m.ram && e.owners == m.owners[f := -1]
    requires pg in e.ents && e.ents[pg].block < |e.taken| && CameIn(e, n, pg, f) && RestStays(e, n, {pg}) && n.disk == e.disk
    ensures WentOut(m, n, v, f) && CameIn(m, n, pg, f) && RestStays(m, n, {pg, v})
  {
    assert e.ents[pg] == m.ents[pg];
    assert e.disk[m.base + m.ents[pg].block] == m.disk[m.base + m.ents[pg].block];
  }

  lemma NoneIsFree(m: Memory)
    requires FirstFree(m.owners) == |m.owners|
    ensures NoneFree(m)
  {
  }

  lemma LowestIsFree(m: Memory)
    requires FirstFree(m.owners) < |m.owners|
    ensures LowestFree(m, FirstFree(m.owners))
  {
  }

  lemma ServedParts(m: Memory, pg: Page)
    requires Inv(m) && pg in m.ents && m.ents[pg].block < |m.taken| && !m.ents[pg].present && ServeFault(m, pg).Ok?
    ensures FirstFree(m.owners) < |m.owners| ==> ServeFault(m, pg).value == Install(m, pg, FirstFree(m.owners))
    ensures FirstFree(m.owners) == |m.owners| ==>
              && Victim(m).Some?
              && var v := Victim(m).value;
                 && v in m.ents && v != pg && m.ents[v].present && EntryOk(m, m.ents[v], v.pid)
                 && m.ents[v].block != m.ents[pg].block && m.ents[v].frame >= 0
                 && pg in Evict(m, v).ents && Evict(m, v).ents[pg] == m.ents[pg]
                 && ServeFault(m, pg).value == Install(Evict(m, v), pg, m.ents[v].frame)
  {
    hide Frames, SwapOwned, Queue, Stamps, Clean, Victim, Install;
    if FirstFree(m.owners) == |m.owners| {
      VictimResident(m, Victim(m).value);
      BlocksApart(m, Victim(m).value, pg);
    }
  }

  /** Page-fault service, in full: it dies exactly when no frame is free and there is nothing
      to replace. */
  lemma ServiceExact(m: Memory, pg: Page)
    requires Inv(m) && pg in m.ents && m.ents[pg].block < |m.taken| && !m.ents[pg].present
    ensures ServeFault(m, pg).Crash? <==> NoneFree(m) && NothingToReplace(m)
    ensures ServeFault(m, pg).Ok? ==> ServedAs(m, ServeFault(m, pg).value, pg)
  {
    hide Inv, ServeFault, ServedAs, NoneFree, NothingToReplace, FirstFree, Victim;
    ServiceDies(m, pg);
    if ServeFault(m, pg).Ok? {
      ServiceWorks(m, pg);
    }
  }

  lemma ServiceDies(m: Memory, pg: Page)
    requires Inv(m) && pg in m.ents && m.ents[pg].block < |m.taken| && !m.ents[pg].present
    ensures ServeFault(m, pg).Crash? <==> NoneFree(m) && NothingToReplace(m)
  {
    hide Inv, NothingToReplace, Victim, Install, Replace;
    VictimIs(m);
    if FirstFree(m.owners) == |m.owners| {
      NoneIsFree(m);
    } else {
      LowestIsFree(m);
    }
  }

  lemma ServiceWorks(m: Memory, pg: Page)
    requires Inv(m) && pg in m.ents && m.ents[pg].block < |m.taken| && !m.ents[pg].present && ServeFault(m, pg).Ok?
    ensures ServedAs(m, ServeFault(m, pg).value, pg)
  {
    hide Inv, Victim, Install, Evict, ServeFault, CameIn, WentOut, RestStays, LowestFree, NoneFree, FirstFree, ToReplace;
    InvShape(m);
    VictimIs(m);
    ServedParts(m, pg);
    if FirstFree(m.owners) < |m.owners| {
      InstallExact(m, pg, FirstFree(m.owners));
      LowestIsFree(m);
    } else {
      var v := Victim(m).value;
      var f: nat := m.ents[v].frame;
      EvictExact(m, v);
      InstallExact(Evict(m, v), pg, f);
      Through(m, Evict(m, v), ServeFault(m, pg).value, pg, v, f);
      NoneIsFree(m);
      TouchedAfter(m, pg, v, f);
      assert Displaced(m, ServeFault(m, pg).value, pg, v, f);
    }
  }

  lemma TouchedAfter(m: Memory, pg: Page, v: Page, f: nat)
    requires Shape(m) && v in m.ents && EntryOk(m, m.ents[v], v.pid) && m.ents[v].present && f == m.ents[v].frame
    requires pg in Evict(m, v).ents && Evict(m, v).ents[pg].block < |m.taken|
    ensures Install(Evict(m, v), pg, f).touched == if m.policy.Fifo? && m.touched != [] then m.touched[1..] else m.touched
  {
  }

  // ---------------------------------------------------------------------- accesses

  /** Page pg, in frame f, counts as used now: the next tick is its stamp, and it is on the list,
      at the end unless it was there. Its dirty bit is what it is given. */
  ghost predicate UsedNow(m: Memory, n: Memory, pg: Page, f: nat, dirty: bool) {
    && pg in m.ents && m.ents[pg].present && m.ents[pg].frame == f && n.clock == m.clock + 1
    && n.ents.Keys == m.ents.Keys && (forall q :: q in m.ents && q != pg ==> n.ents[q] == m.ents[q])
    && n.ents[pg] == Entry(f, true, dirty, m.ents[pg].block, m.clock + 1)
    && n.touched == (if pg in m.touched then m.touched else m.touched + [pg])
    && n.owners == m.owners && n.count == m.count && n.order == m.order && n.taken == m.taken
    && n.pageSize == m.pageSize && n.base == m.base && n.policy == m.policy
  }

  /** Some page is in frame f. */
  ghost predicate Occupied(m: Memory, f: nat) {
    exists pg :: pg in m.ents && m.ents[pg].present && m.ents[pg].frame == f
  }

  lemma HolderIs(m: Memory, f: nat)
    requires Inv(m) && f < |m.owners|
    ensures PageAt(m, f).Some? <==> Occupied(m, f)
    ensures PageAt(m, f).Some? ==>
              var pg := PageAt(m, f).value; pg in m.ents && m.ents[pg].present && m.ents[pg].frame == f
  {
    if Occupied(m, f) {
      var pg :| pg in m.ents && m.ents[pg].present && m.ents[pg].frame == f;
      InvEntry(m, pg);
      PageAtHolder(m, pg);
    }
  }

  /** MOV_OUT_CPU: four bytes from the address on, the least significant first; the page of the
      address is used and modified. */
  lemma StoreExact(m: Memory, df: nat, v: Word)
    requires Inv(m) && Shape(m) && Tables(m)
    ensures Store(m, df, v).Ok? <==> df + 4 <= |m.ram| && Occupied(m, df / m.pageSize)
    ensures Store(m, df, v).Ok? ==>
              var n := Store(m, df, v).value;
              && (exists pg :: UsedNow(m, n, pg, df / m.pageSize, true)) && n.disk == m.disk
              && |n.ram| == |m.ram| && WordAt(n.ram, df, v)
              && forall i :: 0 <= i < |m.ram| && !(df <= i < df + 4) ==> n.ram[i] == m.ram[i]
  {
    hide Inv, Tables, PageAt, Le, Patch, WordAt;
    if df + 4 <= |m.ram| {
      FrameOfAddress(m, df);
      HolderIs(m, df / m.pageSize);
      PatchedWord(m.ram, df, v);
      if Store(m, df, v).Ok? {
        assert UsedNow(m, Store(m, df, v).value, PageAt(m, df / m.pageSize).value, df / m.pageSize, true);
      }
    }
  }

  /** MOV_IN_CPU: the word from the address on; the page of the address is used. */
  lemma LoadExact(m: Memory, df: nat)
    requires Inv(m) && Shape(m) && Tables(m)
    ensures Load(m, df).Ok? <==> df + 4 <= |m.ram| && Occupied(m, df / m.pageSize)
    ensures Load(m, df).Ok? ==>
              var (n, w) := Load(m, df).value;
              && (exists pg :: pg in m.ents && UsedNow(m, n, pg, df / m.pageSize, m.ents[pg].dirty))
              && n.ram == m.ram && n.disk == m.disk && WordAt(m.ram, df, w)
  {
    hide Inv, Tables, PageAt, FromLe, WordAt;
    if df + 4 <= |m.ram| {
      FrameOfAddress(m, df);
      HolderIs(m, df / m.pageSize);
      WordThere(m.ram, df, FromLe(m.ram[df..df + 4]));
      if Load(m, df).Ok? {
        var pg := PageAt(m, df / m.pageSize).value;
        assert UsedNow(m, Load(m, df).value.0, pg, df / m.pageSize, m.ents[pg].dirty);
      }
    }
  }
}
