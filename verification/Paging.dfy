/** Demand-paged memory with swap: the state the memory process keeps
    (memoria/src/memoria.c) together with the swap area of the filesystem
    process, as one value, and every handler as a function on it. */
module Paging {
  import opened Words

  /** A reference to one t_entrada_tabla_pag: page index of process pid. */
  datatype Page = Page(pid: nat, index: nat)

  datatype Entry = Entry(frame: int, present: bool, dirty: bool, block: nat, stamp: nat)

  datatype Policy = Fifo | Lru

  /** Stamp of an entry that was never accessed. */
  const MAX_LRU: nat := 999_999

  datatype Memory = Memory(
    pageSize: nat,           // TAM_PAGINA, equal to TAM_BLOQUE
    base: nat,               // first swap block in the block file: tamanio_fat - 1
    policy: Policy,          // ALGORITMO_REEMPLAZO
    owners: seq<int>,        // marcos: pid that owns each frame, -1 when free
    order: seq<nat>,         // procesos_totales: pids in creation order
    count: map<nat, nat>,    // cantidad_paginas of each process
    ents: map<Page, Entry>,  // the page-table entries
    touched: seq<Page>,      // paginas_utilizadas
    clock: nat,              // contador_lru
    ram: Bytes,              // memoria_usuario
    taken: seq<bool>,        // swap[]
    disk: seq<Bytes>)        // the block file

  // ---------------------------------------------------------------- invariant

  predicate Shape(m: Memory) {
    && m.pageSize > 0
    && |m.ram| == |m.owners| * m.pageSize
    && m.base + |m.taken| <= |m.disk|
    && forall b :: 0 <= b < |m.disk| ==> |m.disk[b]| == m.pageSize
  }

  predicate EntryOk(m: Memory, e: Entry, pid: nat) {
    && (e.present ==> 0 <= e.frame < |m.owners| && m.owners[e.frame] == pid)
    && (!e.present ==> e.frame == -1 && !e.dirty)
    && e.block < |m.taken| && m.taken[e.block]
  }

  /** The process list, the page counts and the entries describe the same processes. */
  ghost predicate Tables(m: Memory) {
    && (forall pg :: pg in m.ents <==> pg.pid in m.count && pg.index < m.count[pg.pid])
    && (forall pid :: pid in m.order <==> pid in m.count)
    && Distinct(m.order)
  }

  /** Occupied frames and resident pages are in one-to-one correspondence. */
  ghost predicate Frames(m: Memory) {
    EntriesOk(m) && OneHolder(m) && AllHeld(m)
  }

  ghost predicate EntriesOk(m: Memory) {
    forall pg :: pg in m.ents ==> EntryOk(m, m.ents[pg], pg.pid)
  }

  ghost predicate OneHolder(m: Memory) {
    forall f, pg, q :: Holds(m, f, pg) && Holds(m, f, q) ==> pg == q
  }

  ghost predicate AllHeld(m: Memory) {
    forall f :: 0 <= f < |m.owners| && m.owners[f] != -1 ==> exists pg :: Holds(m, f, pg)
  }

  predicate Holds(m: Memory, f: int, pg: Page) {
    pg in m.ents && m.ents[pg].present && m.ents[pg].frame == f
  }

  /** Every taken swap block belongs to exactly one page of a live process. */
  ghost predicate SwapOwned(m: Memory) {
    && (forall b, pg, q :: Backs(m, b, pg) && Backs(m, b, q) ==> pg == q)
    && (forall b :: 0 <= b < |m.taken| && m.taken[b] ==> exists pg :: Backs(m, b, pg))
  }

  predicate Backs(m: Memory, b: nat, pg: Page) {
    pg in m.ents && m.ents[pg].block == b
  }

  /** paginas_utilizadas lists entries without repetition; under FIFO only resident ones. */
  ghost predicate Queue(m: Memory) {
    && (forall k :: 0 <= k < |m.touched| ==> m.touched[k] in m.ents)
    && Distinct(m.touched)
    && (m.policy.Fifo? ==> forall k :: 0 <= k < |m.touched| ==> m.ents[m.touched[k]].present)
  }

  /** Stamps are ticks of the access counter, and no two accessed pages share one. */
  ghost predicate Stamps(m: Memory) {
    && (forall pg :: pg in m.ents && m.ents[pg].stamp != MAX_LRU ==> 0 < m.ents[pg].stamp <= m.clock)
    && (forall t, pg, q :: t != MAX_LRU && Stamped(m, t, pg) && Stamped(m, t, q) ==> pg == q)
  }

  predicate Stamped(m: Memory, t: nat, pg: Page) {
    pg in m.ents && m.ents[pg].stamp == t
  }

  /** A resident page whose dirty bit is 0 equals its swap block. */
  ghost predicate Clean(m: Memory)
    requires Shape(m) && EntriesOk(m)
  {
    forall pg :: pg in m.ents ==> CleanAt(m, pg)
  }

  predicate CleanAt(m: Memory, pg: Page)
    requires Shape(m) && pg in m.ents && EntryOk(m, m.ents[pg], pg.pid)
  {
    m.ents[pg].present && !m.ents[pg].dirty ==>
      FrameBytes(m, m.ents[pg].frame) == m.disk[m.base + m.ents[pg].block]
  }

  ghost predicate Inv(m: Memory) {
    Shape(m) && Tables(m) && Frames(m) && SwapOwned(m) && Queue(m) && Stamps(m) && Clean(m)
  }

  /** Everything but Clean: all that page-fault service relies on. */
  ghost predicate Placed(m: Memory) {
    Shape(m) && Tables(m) && Frames(m) && SwapOwned(m) && Queue(m) && Stamps(m)
  }

  function FrameBytes(m: Memory, f: nat): (bs: Bytes)
    requires Shape(m) && f < |m.owners|
    ensures |bs| == m.pageSize
  {
    FrameInside(|m.owners|, m.pageSize, f);
    Slice(m.ram, m.pageSize, f)
  }

  lemma SameFrameBytes(m: Memory, n: Memory)
    requires Shape(m) && Shape(n) && m.pageSize == n.pageSize && m.ram == n.ram && |m.owners| == |n.owners|
    ensures forall f: nat :: f < |m.owners| ==> FrameBytes(n, f) == FrameBytes(m, f)
  {
  }

  // ------------------------------------------------------------- abstraction

  /** What a process sees in one page: the frame if resident, else the swap block. */
  function PageBytes(m: Memory, pg: Page): (bs: Bytes)
    requires Shape(m) && pg in m.ents && EntryOk(m, m.ents[pg], pg.pid)
    ensures |bs| == m.pageSize
  {
    if m.ents[pg].present then FrameBytes(m, m.ents[pg].frame) else m.disk[m.base + m.ents[pg].block]
  }

  /** The private pages of all processes, with residency and placement forgotten. */
  ghost function Contents(m: Memory): map<Page, Bytes>
    requires Inv(m)
  {
    map pg | pg in m.ents :: PageBytes(m, pg)
  }

  // --------------------------------------------------------- page-fault service

  /** Index of the first free frame (es_marco_libre), |owners| when there is none. */
  function FirstFree(owners: seq<int>): (f: nat)
    ensures f <= |owners|
    ensures f < |owners| ==> owners[f] == -1
    ensures forall k :: 0 <= k < f ==> owners[k] != -1
  {
    if owners == [] || owners[0] == -1 then 0 else 1 + FirstFree(owners[1..])
  }

  /** paginas_utilizadas after choosing a victim: obtenerPaginaFIFO takes the head off. */
  function AfterChoice(m: Memory): seq<Page> {
    if m.policy.Fifo? && m.touched != [] then m.touched[1..] else m.touched
  }

  /** Take the frame of the victim v away, writing it to swap when modified. */
  function Evict(m: Memory, v: Page): (n: Memory)
    requires Shape(m) && v in m.ents && EntryOk(m, m.ents[v], v.pid) && m.ents[v].present
    ensures Shape(n) && |n.owners| == |m.owners| && n.taken == m.taken && n.ents.Keys == m.ents.Keys
  {
    var e := m.ents[v];
    m.(owners := m.owners[e.frame := -1],
       ents := m.ents[v := e.(frame := -1, present := false, dirty := false)],
       touched := AfterChoice(m),
       disk := if e.dirty then m.disk[m.base + e.block := FrameBytes(m, e.frame)] else m.disk)
  }

  /** Give frame f to page pg and load its swap block into it. */
  function Install(m: Memory, pg: Page, f: nat): Memory
    requires Shape(m) && pg in m.ents && f < |m.owners| && m.ents[pg].block < |m.taken|
  {
    var e := m.ents[pg];
    FrameInside(|m.owners|, m.pageSize, f);
    m.(owners := m.owners[f := pg.pid],
       ents := m.ents[pg := e.(frame := f, present := true, dirty := false)],
       ram := Patch(m.ram, f * m.pageSize, m.disk[m.base + e.block]))
  }

  /** The resident pages of process pid from index i on, in index order. */
  function ResidentOf(m: Memory, pid: nat, i: nat): seq<Page>
    requires pid in m.count
    requires forall k :: 0 <= k < m.count[pid] ==> Page(pid, k) in m.ents
    decreases m.count[pid] - i
  {
    if i >= m.count[pid] then []
    else (if m.ents[Page(pid, i)].present then [Page(pid, i)] else []) + ResidentOf(m, pid, i + 1)
  }

  /** All resident pages in table order: obtener_total_pags_en_memoria. */
  function Resident(m: Memory, pids: seq<nat>): seq<Page>
    requires Tables(m) && forall pid :: pid in pids ==> pid in m.count
  {
    if pids == [] then []
    else ResidentOf(m, pids[0], 0) + Resident(m, pids[1..])
  }

  /** The first page of the list with the smallest stamp below MAX_LRU:
      obtener_entrada_menor_tiempo_lru. */
  function MinStamp(m: Memory, pages: seq<Page>): (r: Option<Page>)
    requires forall k :: 0 <= k < |pages| ==> pages[k] in m.ents
    ensures r.Some? ==> r.value in pages && m.ents[r.value].stamp < MAX_LRU
    ensures r.Some? ==> forall k :: 0 <= k < |pages| ==> m.ents[r.value].stamp <= m.ents[pages[k]].stamp
    ensures r.None? ==> forall k :: 0 <= k < |pages| ==> m.ents[pages[k]].stamp >= MAX_LRU
  {
    if pages == [] then None
    else
      var n := |pages| - 1;
      var r := MinStamp(m, pages[..n]);
      var bound := if r.Some? then m.ents[r.value].stamp else MAX_LRU;
      if m.ents[pages[n]].stamp < bound then Some(pages[n]) else r
  }

  lemma ResidentOfMember(m: Memory, pid: nat, i: nat, pg: Page)
    requires Tables(m) && pid in m.count
    ensures pg in ResidentOf(m, pid, i) <==>
            pg.pid == pid && i <= pg.index < m.count[pid] && m.ents[pg].present
    decreases m.count[pid] - i
  {
    if i < m.count[pid] {
      ResidentOfMember(m, pid, i + 1, pg);
      var rest := ResidentOf(m, pid, i + 1);
      if m.ents[Page(pid, i)].present {
        assert ResidentOf(m, pid, i) == [Page(pid, i)] + rest;
      } else {
        assert ResidentOf(m, pid, i) == [] + rest == rest;
      }
    }
  }

  lemma ResidentMember(m: Memory, pids: seq<nat>, pg: Page)
    requires Tables(m) && forall pid :: pid in pids ==> pid in m.count
    ensures pg in Resident(m, pids) <==>
            pg.pid in pids && pg.index < m.count[pg.pid] && m.ents[pg].present
  {
    if pids != [] {
      ResidentOfMember(m, pids[0], 0, pg);
      ResidentMember(m, pids[1..], pg);
      assert Resident(m, pids) == ResidentOf(m, pids[0], 0) + Resident(m, pids[1..]);
      assert pids == [pids[0]] + pids[1..];
    }
  }

  /** The page to replace; None where the C code goes on with a NULL entry. */
  function Victim(m: Memory): Option<Page>
    requires Tables(m)
  {
    match m.policy
    case Fifo => if m.touched == [] then None else Some(m.touched[0])
    case Lru =>
      AllResidentAreEntries(m);
      MinStamp(m, Resident(m, m.order))
  }

  lemma AllResidentAreEntries(m: Memory)
    requires Tables(m)
    ensures forall k :: 0 <= k < |Resident(m, m.order)| ==> Resident(m, m.order)[k] in m.ents
  {
    forall k | 0 <= k < |Resident(m, m.order)| ensures Resident(m, m.order)[k] in m.ents {
      ResidentMember(m, m.order, Resident(m, m.order)[k]);
    }
  }

  /** Give the frame of v to pg: lines 333-375 of the page-fault handler. */
  function Replace(m: Memory, v: Page, pg: Page): Memory
    requires Shape(m) && v in m.ents && EntryOk(m, m.ents[v], v.pid) && m.ents[v].present
    requires pg in m.ents && m.ents[pg].block < |m.taken|
  {
    Install(Evict(m, v), pg, m.ents[v].frame)
  }

  /** PAGE_FAULT_KERNEL. */
  function Service(m: Memory, pg: Page): Outcome<Memory>
    requires Placed(m)
  {
    if pg !in m.ents then Crash
    else if FirstFree(m.owners) < |m.owners| then Ok(Install(m, pg, FirstFree(m.owners)))
    else match Victim(m)
      case None => Crash
      case Some(v) =>
        VictimPlaced(m, v);
        Ok(Replace(m, v, pg))
  }

  /** PAGE_FAULT_KERNEL on a memory in good order. */
  function ServeFault(m: Memory, pg: Page): Outcome<Memory>
    requires Inv(m)
  {
    Service(m, pg)
  }

  lemma VictimPlaced(m: Memory, v: Page)
    requires Placed(m) && Victim(m) == Some(v)
    ensures v in m.ents && m.ents[v].present && EntryOk(m, m.ents[v], v.pid)
    ensures m.policy.Lru? ==> m.ents[v].stamp < MAX_LRU
    ensures m.policy.Lru? ==> forall q :: q in m.ents && m.ents[q].present ==> m.ents[v].stamp <= m.ents[q].stamp
  {
    if m.policy.Lru? {
      AllResidentAreEntries(m);
      ResidentMember(m, m.order, v);
      forall q | q in m.ents && m.ents[q].present ensures m.ents[v].stamp <= m.ents[q].stamp {
        ResidentMember(m, m.order, q);
      }
    }
  }

  lemma VictimResident(m: Memory, v: Page)
    requires Inv(m) && Victim(m) == Some(v)
    ensures v in m.ents && m.ents[v].present && EntryOk(m, m.ents[v], v.pid)
    ensures m.policy.Lru? ==> m.ents[v].stamp < MAX_LRU
    ensures m.policy.Lru? ==> forall q :: q in m.ents && m.ents[q].present ==> m.ents[v].stamp <= m.ents[q].stamp
  {
    VictimPlaced(m, v);
  }

  // ---------------------------------------------------------------- proofs

  lemma EvictEntriesOk(m: Memory, v: Page)
    requires Shape(m) && EntriesOk(m) && OneHolder(m) && v in m.ents && m.ents[v].present
    ensures EntriesOk(Evict(m, v))
  {
    var n, f := Evict(m, v), m.ents[v].frame;
    assert Holds(m, f, v);
    forall pg | pg in n.ents ensures EntryOk(n, n.ents[pg], pg.pid) {
      assert pg in m.ents && EntryOk(m, m.ents[pg], pg.pid);
      assert Holds(m, f, pg) <==> m.ents[pg].present && m.ents[pg].frame == f;
    }
  }

  lemma EvictHolders(m: Memory, v: Page)
    requires Shape(m) && EntriesOk(m) && OneHolder(m) && AllHeld(m) && v in m.ents && m.ents[v].present
    ensures OneHolder(Evict(m, v)) && AllHeld(Evict(m, v))
  {
    var n := Evict(m, v);
    assert EntryOk(m, m.ents[v], v.pid);
    assert forall g, pg :: Holds(n, g, pg) <==> Holds(m, g, pg) && pg != v;
    forall g | 0 <= g < |n.owners| && n.owners[g] != -1 ensures exists pg :: Holds(n, g, pg) {
      var pg :| Holds(m, g, pg);
      assert Holds(n, g, pg);
    }
  }

  /** SwapOwned, Tables and Stamps only look at fields a page move keeps. */
  ghost predicate SameBacking(m: Memory, n: Memory) {
    && n.count == m.count && n.order == m.order && n.taken == m.taken && n.clock == m.clock
    && n.ents.Keys == m.ents.Keys
    && forall pg :: pg in m.ents ==> n.ents[pg].block == m.ents[pg].block && n.ents[pg].stamp == m.ents[pg].stamp
  }

  lemma InvShape(m: Memory)
    requires Inv(m)
    ensures Shape(m) && Tables(m) && m.pageSize > 0
  {
  }

  lemma InvEntry(m: Memory, pg: Page)
    requires Inv(m) && pg in m.ents
    ensures EntryOk(m, m.ents[pg], pg.pid)
  {
  }

  lemma OneEntryOk(m: Memory, pg: Page)
    requires EntriesOk(m) && pg in m.ents
    ensures EntryOk(m, m.ents[pg], pg.pid)
  {
  }

  lemma QueueKept(m: Memory, n: Memory)
    requires Queue(m) && n.policy == m.policy && n.touched == m.touched && m.ents.Keys == n.ents.Keys
    requires m.policy.Fifo? ==> forall pg :: pg in m.touched && pg in m.ents && m.ents[pg].present ==>
             n.ents[pg].present
    ensures Queue(n)
  {
  }

  lemma BackingKept(m: Memory, n: Memory)
    requires Inv(m) && SameBacking(m, n)
    ensures Tables(n) && SwapOwned(n) && Stamps(n)
  {
    forall pg ensures pg in n.ents <==> pg in m.ents {}
    forall b, pg, q | Backs(n, b, pg) && Backs(n, b, q) ensures pg == q {
      assert Backs(m, b, pg) && Backs(m, b, q);
    }
    forall b | 0 <= b < |n.taken| && n.taken[b] ensures exists pg :: Backs(n, b, pg) {
      var pg :| Backs(m, b, pg);
      assert Backs(n, b, pg);
    }
    forall t, pg, q | t != MAX_LRU && Stamped(n, t, pg) && Stamped(n, t, q) ensures pg == q {
      assert Stamped(m, t, pg) && Stamped(m, t, q);
    }
  }

  /** Eviction changes no page as its process sees it, and leaves it clean. */
  lemma EvictPage(m: Memory, v: Page, q: Page)
    requires Shape(m) && v in m.ents && EntryOk(m, m.ents[v], v.pid) && m.ents[v].present
    requires q in m.ents && EntryOk(m, m.ents[q], q.pid)
    requires q != v ==> m.ents[q].block != m.ents[v].block
    requires EntryOk(Evict(m, v), Evict(m, v).ents[q], q.pid)
    requires CleanAt(m, v) && CleanAt(m, q)
    ensures PageBytes(Evict(m, v), q) == PageBytes(m, q)
    ensures CleanAt(Evict(m, v), q)
  {
    var n := Evict(m, v);
    assert n.ram == m.ram;
    if q != v && m.ents[q].present {
      assert FrameBytes(n, m.ents[q].frame) == FrameBytes(m, m.ents[q].frame);
    }
  }

  /** n shows every process the same bytes as m. */
  ghost predicate SamePages(m: Memory, n: Memory)
    requires Shape(m) && EntriesOk(m) && Shape(n) && EntriesOk(n)
  {
    && n.ents.Keys == m.ents.Keys
    && forall q :: q in m.ents ==> PageBytes(n, q) == PageBytes(m, q)
  }

  lemma {:induction false} SameContents(m: Memory, n: Memory)
    requires Inv(m) && Inv(n) && SamePages(m, n)
    ensures Contents(n) == Contents(m)
  {
    hide PageBytes, Tables, OneHolder, AllHeld, SwapOwned, Queue, Stamps, Clean;
  }

  lemma EvictPages(m: Memory, v: Page)
    requires Inv(m) && v in m.ents && m.ents[v].present && EntriesOk(Evict(m, v))
    ensures SamePages(m, Evict(m, v)) && Clean(Evict(m, v))
  {
    hide FrameBytes;
    var n := Evict(m, v);
    forall q | q in m.ents ensures PageBytes(n, q) == PageBytes(m, q) && CleanAt(n, q) {
      if q != v {
        BlocksApart(m, q, v);
      }
      EvictPage(m, v, q);
    }
  }

  lemma EvictQueue(m: Memory, v: Page)
    requires Queue(m) && Shape(m) && v in m.ents && EntryOk(m, m.ents[v], v.pid) && m.ents[v].present
    requires m.policy.Fifo? ==> m.touched != [] && v == m.touched[0]
    ensures Queue(Evict(m, v))
  {
    assert m.policy.Fifo? ==> forall k :: 0 <= k < |m.touched| - 1 ==> AfterChoice(m)[k] == m.touched[k + 1];
  }

  lemma EvictKeeps(m: Memory, v: Page)
    requires Inv(m) && v in m.ents && m.ents[v].present
    requires m.policy.Fifo? ==> m.touched != [] && v == m.touched[0]
    ensures Inv(Evict(m, v)) && SamePages(m, Evict(m, v))
  {
    hide Tables, EntriesOk, OneHolder, AllHeld, SwapOwned, Queue, Stamps, Clean, SamePages, AfterChoice;
    OneEntryOk(m, v);
    var n := Evict(m, v);
    EvictEntriesOk(m, v);
    EvictHolders(m, v);
    BackingKept(m, n);
    EvictPages(m, v);
    EvictQueue(m, v);
  }

  lemma BlocksApart(m: Memory, pg: Page, q: Page)
    requires Inv(m) && pg in m.ents && q in m.ents && pg != q
    ensures m.ents[pg].block != m.ents[q].block
    ensures m.ents[pg].present && m.ents[q].present ==> m.ents[pg].frame != m.ents[q].frame
  {
    assert Backs(m, m.ents[pg].block, pg) && Backs(m, m.ents[q].block, q);
    assert m.ents[pg].present ==> Holds(m, m.ents[pg].frame, pg);
    assert m.ents[q].present ==> Holds(m, m.ents[q].frame, q);
  }

  lemma InstallFrames(m: Memory, pg: Page, f: nat)
    requires Inv(m) && pg in m.ents && !m.ents[pg].present && f < |m.owners| && m.owners[f] == -1
    ensures Shape(Install(m, pg, f)) && Frames(Install(m, pg, f))
  {
    var n := Install(m, pg, f);
    forall q | q in n.ents ensures EntryOk(n, n.ents[q], q.pid) {
      assert EntryOk(m, m.ents[q], q.pid);
    }
    forall g, p, q | Holds(n, g, p) && Holds(n, g, q) ensures p == q {
      assert p != pg ==> Holds(m, g, p);
      assert q != pg ==> Holds(m, g, q);
    }
    forall g | 0 <= g < |n.owners| && n.owners[g] != -1 ensures exists q :: Holds(n, g, q) {
      if g == f {
        assert Holds(n, g, pg);
      } else {
        var q :| Holds(m, g, q);
        assert Holds(n, g, q);
      }
    }
  }

  lemma InstallBytes(m: Memory, pg: Page, f: nat, g: nat)
    requires Shape(m) && pg in m.ents && m.ents[pg].block < |m.taken|
    requires f < |m.owners| && g < |m.owners|
    ensures Shape(Install(m, pg, f))
    ensures FrameBytes(Install(m, pg, f), g)
         == if g == f then m.disk[m.base + m.ents[pg].block] else FrameBytes(m, g)
  {
    PatchFrame(m.ram, |m.owners|, m.pageSize, f, 0, m.disk[m.base + m.ents[pg].block], g);
  }

  lemma InstallPage(m: Memory, pg: Page, f: nat, q: Page)
    requires Shape(m) && pg in m.ents && EntryOk(m, m.ents[pg], pg.pid) && !m.ents[pg].present
    requires f < |m.owners| && m.owners[f] == -1
    requires q in m.ents && EntryOk(m, m.ents[q], q.pid) && CleanAt(m, q)
    ensures var n := Install(m, pg, f);
            Shape(n) && EntryOk(n, n.ents[q], q.pid) && PageBytes(n, q) == PageBytes(m, q) && CleanAt(n, q)
  {
    if q == pg {
      InstallBytes(m, pg, f, f);
    } else if m.ents[q].present {
      InstallBytes(m, pg, f, m.ents[q].frame);
    } else {
      InstallBytes(m, pg, f, f);
    }
  }

  lemma InstallPages(m: Memory, pg: Page, f: nat)
    requires Inv(m) && pg in m.ents && !m.ents[pg].present && f < |m.owners| && m.owners[f] == -1
    requires Shape(Install(m, pg, f)) && EntriesOk(Install(m, pg, f))
    ensures SamePages(m, Install(m, pg, f)) && Clean(Install(m, pg, f))
  {
    hide FrameBytes, PageBytes, CleanAt, OneHolder, AllHeld, Tables, SwapOwned, Queue, Stamps, Patch;
    forall q | q in m.ents
      ensures PageBytes(Install(m, pg, f), q) == PageBytes(m, q) && CleanAt(Install(m, pg, f), q)
    {
      InstallPage(m, pg, f, q);
    }
  }

  lemma InstallKeeps(m: Memory, pg: Page, f: nat)
    requires Inv(m) && pg in m.ents && !m.ents[pg].present && f < |m.owners| && m.owners[f] == -1
    ensures Inv(Install(m, pg, f)) && SamePages(m, Install(m, pg, f))
  {
    hide Tables, EntriesOk, OneHolder, AllHeld, SwapOwned, Queue, Stamps, Clean, SamePages;
    OneEntryOk(m, pg);
    var n := Install(m, pg, f);
    InstallFrames(m, pg, f);
    BackingKept(m, n);
    InstallPages(m, pg, f);
    QueueKept(m, n);
  }

  lemma ReplaceKeeps(m: Memory, v: Page, pg: Page)
    requires Inv(m) && v in m.ents && m.ents[v].present && pg in m.ents && !m.ents[pg].present
    requires EntryOk(m, m.ents[v], v.pid) && m.ents[pg].block < |m.taken|
    requires m.policy.Fifo? ==> m.touched != [] && v == m.touched[0]
    ensures Inv(Replace(m, v, pg)) && SamePages(m, Replace(m, v, pg))
  {
    hide Frames, Tables, SwapOwned, Queue, Stamps, Clean, PageBytes, Install, AfterChoice;
    EvictKeeps(m, v);
    InstallKeeps(Evict(m, v), pg, m.ents[v].frame);
  }

  /** Page-fault service succeeds exactly when there is a free frame or a page to
      replace, and then it changes nothing that any process can see. */
  lemma ServeFaultKeeps(m: Memory, pg: Page)
    requires Inv(m) && pg in m.ents && !m.ents[pg].present
    ensures ServeFault(m, pg).Ok? <==> FirstFree(m.owners) < |m.owners| || Victim(m).Some?
    ensures var r := ServeFault(m, pg);
            r.Ok? ==> Inv(r.value) && Contents(r.value) == Contents(m)
                      && pg in r.value.ents && r.value.ents[pg].present
  {
    hide EntryOk, EntriesOk, OneHolder, AllHeld, Tables, SwapOwned, Queue, Stamps, Clean, PageBytes, Evict,
         SamePages, Contents, MinStamp;
    OneEntryOk(m, pg);
    if FirstFree(m.owners) < |m.owners| {
      InstallKeeps(m, pg, FirstFree(m.owners));
      SameContents(m, Install(m, pg, FirstFree(m.owners)));
    } else if Victim(m).Some? {
      var v := Victim(m).value;
      VictimResident(m, v);
      ReplaceKeeps(m, v, pg);
      SameContents(m, Replace(m, v, pg));
    }
  }
}
